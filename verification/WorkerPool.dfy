/** The test runner's worker pool: a dispatcher, a FIFO of jobs and break
    tokens, workers, an output queue, a collector and an interrupt flag, as a
    step relation that allows every interleaving. */
module WorkerPool {
  datatype Job = Job(id: nat, isSkip: bool)

  datatype Item = Task(job: Job) | BreakToken

  datatype Verdict = Interrupted | Skipped | Returned(code: int)

  datatype Outcome = Outcome(job: Job, verdict: Verdict)

  /** Where a worker stands in its loop. */
  datatype Worker =
    | Waiting                    // in input_queue.get
    | Holding(job: Job)          // has a job, has not looked at the flag
    | Running(job: Job)          // in run_job_synchronously
    | Putting(outcome: Outcome)  // about to put the job on the output queue
    | Exited

  datatype Tally = Tally(passed: nat, failed: nat, skipped: nat, crashed: nat, valgrind: nat)

  datatype State = State(
    pending: seq<Job>,       // not dispatched yet
    dispatched: nat,         // the counts of jobs and of total tests
    tokensLeft: nat,         // break tokens still to be put
    input: seq<Item>,
    workers: seq<Worker>,
    output: seq<Outcome>,
    collected: seq<Outcome>,
    tally: Tally,
    joined: nat,             // workers joined so far
    exitCode: int,           // -1 until the runner returns
    threadExit: bool)

  datatype Action =
    | Dispatch | SendBreak | Collect | Join | Finish
    | Get(w: nat) | Decide(w: nat) | Run(w: nat, code: int) | Put(w: nat)
    | Interrupt

  function Start(jobs: seq<Job>, workers: nat): State {
    State(jobs, 0, workers, [], seq(workers, _ => Waiting), [], [], Tally(0, 0, 0, 0, 0), 0, -1, false)
  }

  function Count(t: Tally, v: Verdict): Tally {
    match v
    case Interrupted => t
    case Skipped => t.(skipped := t.skipped + 1)
    case Returned(code) =>
      if code == 0 then t.(passed := t.passed + 1)
      else if code == 1 then t.(failed := t.failed + 1)
      else if code == 2 then t.(valgrind := t.valgrind + 1)
      else t.(crashed := t.crashed + 1)
  }

  /** The runner goes through its phases in order. */
  predicate Enabled(s: State, a: Action) {
    match a
    case Dispatch => s.pending != []
    case SendBreak => s.pending == [] && s.tokensLeft > 0
    case Collect => s.pending == [] && s.tokensLeft == 0 && |s.collected| < s.dispatched && s.output != []
    case Join => s.pending == [] && s.tokensLeft == 0 && |s.collected| >= s.dispatched && s.joined < |s.workers| && s.workers[s.joined] == Exited
    case Finish => s.pending == [] && s.tokensLeft == 0 && |s.collected| >= s.dispatched && s.joined >= |s.workers| && s.exitCode == -1
    case Get(w) => w < |s.workers| && s.workers[w] == Waiting && s.input != []
    case Decide(w) => w < |s.workers| && s.workers[w].Holding?
    case Run(w, _) => w < |s.workers| && s.workers[w].Running?
    case Put(w) => w < |s.workers| && s.workers[w].Putting?
    case Interrupt => !s.threadExit
  }

  function Apply(s: State, a: Action): State
    requires Enabled(s, a)
  {
    match a
    case Dispatch => s.(pending := s.pending[1..], dispatched := s.dispatched + 1, input := s.input + [Task(s.pending[0])])
    case SendBreak => s.(tokensLeft := s.tokensLeft - 1, input := s.input + [BreakToken])
    case Collect => s.(output := s.output[1..], collected := s.collected + [s.output[0]], tally := Count(s.tally, s.output[0].verdict))
    case Join => s.(joined := s.joined + 1)
    case Finish => s.(exitCode := if s.tally.passed + s.tally.skipped == s.dispatched then 0 else 1)
    case Get(w) => s.(input := s.input[1..], workers := s.workers[w := if s.input[0].BreakToken? then Exited else Holding(s.input[0].job)])
    case Decide(w) =>
      var job := s.workers[w].job;
      s.(workers := s.workers[w :=
        if s.threadExit then Putting(Outcome(job, Interrupted))
        else if job.isSkip then Putting(Outcome(job, Skipped))
        else Running(job)])
    case Run(w, code) => s.(workers := s.workers[w := Putting(Outcome(s.workers[w].job, Returned(code)))])
    case Put(w) => s.(workers := s.workers[w := Waiting], output := s.output + [s.workers[w].outcome])
    case Interrupt => s.(threadExit := true)
  }

  /** actions lead from s to t. */
  ghost predicate Leads(s: State, actions: seq<Action>, t: State)
    decreases |actions|
  {
    if actions == [] then s == t
    else Enabled(s, actions[0]) && Leads(Apply(s, actions[0]), actions[1..], t)
  }

  // ------------------------------------------------------------ bookkeeping

  function TasksOf(input: seq<Item>): seq<Job> {
    if input == [] then []
    else (if input[0].Task? then [input[0].job] else []) + TasksOf(input[1..])
  }

  function JobsOf(outcomes: seq<Outcome>): seq<Job> {
    seq(|outcomes|, i requires 0 <= i < |outcomes| => outcomes[i].job)
  }

  function Has(w: Worker, j: Job): nat {
    match w
    case Waiting => 0
    case Holding(job) => if job == j then 1 else 0
    case Running(job) => if job == j then 1 else 0
    case Putting(outcome) => if outcome.job == j then 1 else 0
    case Exited => 0
  }

  function HeldBy(ws: seq<Worker>, j: Job): nat {
    if ws == [] then 0 else Has(ws[0], j) + HeldBy(ws[1..], j)
  }

  function Live(ws: seq<Worker>): nat {
    if ws == [] then 0 else (if ws[0] == Exited then 0 else 1) + Live(ws[1..])
  }

  /** How far a worker is from being free again. */
  function Steps(w: Worker): nat {
    match w
    case Waiting => 0
    case Holding(_) => 4
    case Running(_) => 3
    case Putting(_) => 2
    case Exited => 0
  }

  function AllSteps(ws: seq<Worker>): nat {
    if ws == [] then 0 else Steps(ws[0]) + AllSteps(ws[1..])
  }

  lemma {:induction false} HeldMoves(ws: seq<Worker>, w: nat, x: Worker, j: Job)
    requires w < |ws|
    ensures HeldBy(ws[w := x], j) + Has(ws[w], j) == HeldBy(ws, j) + Has(x, j)
  {
    if w == 0 {
      assert ws[w := x] == [x] + ws[1..];
    } else {
      HeldMoves(ws[1..], w - 1, x, j);
      assert ws[w := x] == [ws[0]] + ws[1..][w - 1 := x];
    }
  }

  lemma {:induction false} StepsMove(ws: seq<Worker>, w: nat, x: Worker)
    requires w < |ws|
    ensures AllSteps(ws[w := x]) + Steps(ws[w]) == AllSteps(ws) + Steps(x)
  {
    if w == 0 {
      assert ws[w := x] == [x] + ws[1..];
    } else {
      StepsMove(ws[1..], w - 1, x);
      assert ws[w := x] == [ws[0]] + ws[1..][w - 1 := x];
    }
  }

  lemma {:induction false} LiveMoves(ws: seq<Worker>, w: nat, x: Worker)
    requires w < |ws|
    ensures Live(ws[w := x]) + (if ws[w] == Exited then 0 else 1) == Live(ws) + if x == Exited then 0 else 1
  {
    if w == 0 {
      assert ws[w := x] == [x] + ws[1..];
    } else {
      LiveMoves(ws[1..], w - 1, x);
      assert ws[w := x] == [ws[0]] + ws[1..][w - 1 := x];
    }
  }

  lemma {:induction false} TasksAppend(input: seq<Item>, x: Item)
    ensures TasksOf(input + [x]) == TasksOf(input) + if x.Task? then [x.job] else []
  {
    if input == [] {
      assert [x][1..] == [];
    } else {
      TasksAppend(input[1..], x);
      assert (input + [x])[1..] == input[1..] + [x];
    }
  }

  /** How many times the job is present, wherever it is. */
  function Copies(s: State, j: Job): nat {
    multiset(s.pending)[j] + multiset(TasksOf(s.input))[j] + HeldBy(s.workers, j) + multiset(JobsOf(s.output))[j] + multiset(JobsOf(s.collected))[j]
  }

  function Interruptions(outcomes: seq<Outcome>): nat {
    if outcomes == [] then 0
    else Interruptions(outcomes[..|outcomes| - 1]) + if outcomes[|outcomes| - 1].verdict == Interrupted then 1 else 0
  }

  /** The tally of a sequence of outcomes. */
  function TallyOf(outcomes: seq<Outcome>): Tally {
    if outcomes == [] then Tally(0, 0, 0, 0, 0)
    else Count(TallyOf(outcomes[..|outcomes| - 1]), outcomes[|outcomes| - 1].verdict)
  }

  /** Every job is in exactly one place: dispatched jobs come out once each. */
  ghost predicate Conserved(s: State, jobs: seq<Job>) {
    (forall j :: Copies(s, j) == multiset(jobs)[j]) && s.dispatched + |s.pending| == |jobs|
  }

  /** Break tokens queued and still to be sent match the live workers, and come after all jobs. */
  ghost predicate Tokens(s: State) {
    && |s.input| - |TasksOf(s.input)| + s.tokensLeft == Live(s.workers)
    && (forall i, j :: 0 <= i < j < |s.input| && s.input[i] == BreakToken ==> s.input[j] == BreakToken)
    && (BreakToken in s.input || s.tokensLeft < |s.workers| ==> s.pending == [])
    && (Exited in s.workers ==> s.pending == [] && TasksOf(s.input) == [])
    && s.tokensLeft <= |s.workers|
  }

  /** What the runner has counted and joined. */
  ghost predicate Counted(s: State) {
    && s.tally == TallyOf(s.collected)
    && s.joined <= |s.workers| && (forall i :: 0 <= i < s.joined ==> s.workers[i] == Exited)
    && (s.joined > 0 || s.exitCode != -1 ==> s.pending == [] && s.tokensLeft == 0 && |s.collected| >= s.dispatched)
    && (s.exitCode != -1 ==> s.joined == |s.workers| && s.exitCode == if s.tally.passed + s.tally.skipped == s.dispatched then 0 else 1)
  }

  ghost predicate Inv(s: State, jobs: seq<Job>) {
    Conserved(s, jobs) && Tokens(s) && Counted(s)
  }

  lemma {:induction false} StartWorkers(ws: seq<Worker>)
    requires forall i :: 0 <= i < |ws| ==> ws[i] == Waiting
    ensures (forall j :: HeldBy(ws, j) == 0) && Live(ws) == |ws|
  {
    if ws != [] { StartWorkers(ws[1..]); }
  }

  lemma StartInv(jobs: seq<Job>, workers: nat)
    ensures Inv(Start(jobs, workers), jobs)
  {
    StartWorkers(Start(jobs, workers).workers);
  }

  /** A token at the head of the queue has only tokens behind it. */
  lemma {:induction false} OnlyTokens(input: seq<Item>)
    requires forall i :: 0 <= i < |input| ==> input[i] == BreakToken
    ensures TasksOf(input) == []
  {
    if input != [] { OnlyTokens(input[1..]); }
  }

  lemma JobsHead(outcomes: seq<Outcome>)
    requires outcomes != []
    ensures multiset(JobsOf(outcomes)) == multiset{outcomes[0].job} + multiset(JobsOf(outcomes[1..]))
  {
    assert JobsOf(outcomes) == [outcomes[0].job] + JobsOf(outcomes[1..]);
  }

  lemma JobsAppend(outcomes: seq<Outcome>, x: Outcome)
    ensures multiset(JobsOf(outcomes + [x])) == multiset(JobsOf(outcomes)) + multiset{x.job}
  {
    assert JobsOf(outcomes + [x]) == JobsOf(outcomes) + [x.job];
  }

  lemma TasksHead(input: seq<Item>, j: Job)
    requires input != []
    ensures multiset(TasksOf(input))[j] == multiset(TasksOf(input[1..]))[j] + if input[0] == Task(j) then 1 else 0
  {
  }

  lemma DispatchCopies(s: State, j: Job)
    requires Enabled(s, Dispatch)
    ensures Copies(Apply(s, Dispatch), j) == Copies(s, j)
  {
    hide JobsOf, HeldBy, TasksOf;
    TasksAppend(s.input, Task(s.pending[0]));
    assert s.pending == [s.pending[0]] + s.pending[1..];
  }

  lemma SendBreakCopies(s: State, j: Job)
    requires Enabled(s, SendBreak)
    ensures Copies(Apply(s, SendBreak), j) == Copies(s, j)
  {
    hide JobsOf, HeldBy, TasksOf;
    TasksAppend(s.input, BreakToken);
  }

  lemma CollectCopies(s: State, j: Job)
    requires Enabled(s, Collect)
    ensures Copies(Apply(s, Collect), j) == Copies(s, j)
  {
    hide JobsOf, HeldBy, TasksOf;
    JobsHead(s.output);
    JobsAppend(s.collected, s.output[0]);
  }

  lemma QuietCopies(s: State, a: Action, j: Job)
    requires Enabled(s, a) && (a.Join? || a.Finish? || a.Interrupt?)
    ensures Copies(Apply(s, a), j) == Copies(s, j)
  {
    hide JobsOf, HeldBy, TasksOf;
  }

  lemma RunnerCopies(s: State, a: Action, j: Job)
    requires Enabled(s, a) && (a.Dispatch? || a.SendBreak? || a.Collect? || a.Join? || a.Finish? || a.Interrupt?)
    ensures Copies(Apply(s, a), j) == Copies(s, j)
  {
    hide Copies, Apply, Enabled;
    match a
    case Dispatch => DispatchCopies(s, j);
    case SendBreak => SendBreakCopies(s, j);
    case Collect => CollectCopies(s, j);
    case _ => QuietCopies(s, a, j);
  }

  lemma StepCopies(s: State, a: Action, j: Job)
    requires Enabled(s, a)
    ensures Copies(Apply(s, a), j) == Copies(s, j)
  {
    hide JobsOf, TasksOf, HeldBy;
    var t := Apply(s, a);
    match a
    case Get(w) =>
      TasksHead(s.input, j);
      HeldMoves(s.workers, w, t.workers[w], j);
    case Decide(w) => HeldMoves(s.workers, w, t.workers[w], j);
    case Run(w, code) => HeldMoves(s.workers, w, t.workers[w], j);
    case Put(w) =>
      HeldMoves(s.workers, w, Waiting, j);
      JobsAppend(s.output, s.workers[w].outcome);
    case _ => RunnerCopies(s, a, j);
  }

  lemma StepConserves(s: State, a: Action, jobs: seq<Job>)
    requires Conserved(s, jobs) && Enabled(s, a)
    ensures Conserved(Apply(s, a), jobs)
  {
    forall j
      ensures Copies(Apply(s, a), j) == multiset(jobs)[j]
    {
      StepCopies(s, a, j);
    }
  }

  lemma QueueKeepsTokens(s: State, a: Action)
    requires Tokens(s) && Enabled(s, a) && (a.Dispatch? || a.SendBreak?)
    ensures Tokens(Apply(s, a))
  {
    TasksAppend(s.input, if a.Dispatch? then Task(s.pending[0]) else BreakToken);
    hide TasksOf, Live;
  }

  lemma GetKeepsTokens(s: State, w: nat)
    requires Tokens(s) && Enabled(s, Get(w))
    ensures Tokens(Apply(s, Get(w)))
  {
    LiveMoves(s.workers, w, Apply(s, Get(w)).workers[w]);
    assert TasksOf(s.input) == (if s.input[0].Task? then [s.input[0].job] else []) + TasksOf(s.input[1..]);
    if s.input[0] == BreakToken { OnlyTokens(s.input[1..]); }
    hide TasksOf, Live;
  }

  /** A worker that stays alive moves no token. */
  lemma WorkKeepsTokens(s: State, a: Action, w: nat, x: Worker)
    requires Tokens(s) && Enabled(s, a) && w < |s.workers| && s.workers[w] != Exited && x != Exited
    requires Apply(s, a).workers == s.workers[w := x] && Apply(s, a).input == s.input
    requires Apply(s, a).pending == s.pending && Apply(s, a).tokensLeft == s.tokensLeft
    ensures Tokens(Apply(s, a))
  {
    LiveMoves(s.workers, w, x);
    hide TasksOf, Live, Apply;
  }

  lemma StepKeepsTokens(s: State, a: Action)
    requires Tokens(s) && Enabled(s, a)
    ensures Tokens(Apply(s, a))
  {
    var t := Apply(s, a);
    match a
    case Dispatch => QueueKeepsTokens(s, a);
    case SendBreak => QueueKeepsTokens(s, a);
    case Get(w) => GetKeepsTokens(s, w);
    case Decide(w) => hide Tokens; WorkKeepsTokens(s, a, w, t.workers[w]);
    case Run(w, code) => hide Tokens; WorkKeepsTokens(s, a, w, t.workers[w]);
    case Put(w) => hide Tokens; WorkKeepsTokens(s, a, w, Waiting);
    case _ =>
  }

  lemma StepCounts(s: State, a: Action)
    requires Counted(s) && Enabled(s, a)
    ensures Counted(Apply(s, a))
  {
    var t := Apply(s, a);
    if a == Collect { assert t.collected[..|s.collected|] == s.collected; }
  }

  lemma StepInv(s: State, a: Action, jobs: seq<Job>)
    requires Inv(s, jobs) && Enabled(s, a)
    ensures Inv(Apply(s, a), jobs)
  {
    StepConserves(s, a, jobs);
    StepKeepsTokens(s, a);
    StepCounts(s, a);
  }

  lemma {:induction false} RunInv(s: State, actions: seq<Action>, t: State, jobs: seq<Job>)
    requires Inv(s, jobs) && Leads(s, actions, t)
    ensures Inv(t, jobs)
    decreases |actions|
  {
    if actions != [] {
      StepInv(s, actions[0], jobs);
      RunInv(Apply(s, actions[0]), actions[1..], t, jobs);
    }
  }

  // ------------------------------------------------------------- progress

  /** What is left to do; every step uses some of it up. */
  function Remaining(s: State): nat {
    8 * |s.pending| + 2 * s.tokensLeft + |s.input| + 5 * |TasksOf(s.input)| + AllSteps(s.workers) + |s.output|
    + (if s.joined < |s.workers| then |s.workers| - s.joined else 0) + (if s.exitCode == -1 then 1 else 0) + if s.threadExit then 0 else 1
  }

  lemma QueueUses(s: State, a: Action)
    requires Enabled(s, a) && (a.Dispatch? || a.SendBreak?)
    ensures Remaining(Apply(s, a)) < Remaining(s)
  {
    hide TasksOf, AllSteps;
    TasksAppend(s.input, if a.Dispatch? then Task(s.pending[0]) else BreakToken);
  }

  lemma GetUses(s: State, w: nat)
    requires Enabled(s, Get(w))
    ensures Remaining(Apply(s, Get(w))) < Remaining(s)
  {
    hide AllSteps;
    StepsMove(s.workers, w, Apply(s, Get(w)).workers[w]);
  }

  lemma WorkUses(s: State, a: Action, w: nat)
    requires Enabled(s, a) && (a.Decide? || a.Run? || a.Put?) && w == a.w
    ensures Remaining(Apply(s, a)) < Remaining(s)
  {
    hide TasksOf, AllSteps;
    StepsMove(s.workers, w, Apply(s, a).workers[w]);
  }

  lemma RunnerUses(s: State, a: Action)
    requires Enabled(s, a) && (a.Collect? || a.Join? || a.Finish? || a.Interrupt?)
    ensures Remaining(Apply(s, a)) < Remaining(s)
  {
    hide TasksOf, AllSteps;
  }

  lemma StepUses(s: State, a: Action)
    requires Enabled(s, a)
    ensures Remaining(Apply(s, a)) < Remaining(s)
  {
    hide Remaining, Apply, Enabled;
    match a
    case Dispatch => QueueUses(s, a);
    case SendBreak => QueueUses(s, a);
    case Get(w) => GetUses(s, w);
    case Decide(w) => WorkUses(s, a, w);
    case Run(w, code) => WorkUses(s, a, w);
    case Put(w) => WorkUses(s, a, w);
    case _ => RunnerUses(s, a);
  }

  /** No run goes on for ever. */
  lemma {:induction false} RunsAreFinite(s: State, actions: seq<Action>, t: State)
    requires Leads(s, actions, t)
    ensures |actions| + Remaining(t) <= Remaining(s)
    decreases |actions|
  {
    if actions != [] {
      StepUses(s, actions[0]);
      RunsAreFinite(Apply(s, actions[0]), actions[1..], t);
    }
  }

  lemma {:induction false} SomeLive(ws: seq<Worker>) returns (w: nat)
    requires Live(ws) > 0
    ensures w < |ws| && ws[w] != Exited
  {
    if ws[0] != Exited { w := 0; } else {
      w := SomeLive(ws[1..]);
      w := w + 1;
    }
  }

  lemma {:induction false} LiveAt(ws: seq<Worker>, w: nat)
    requires w < |ws| && ws[w] != Exited
    ensures Live(ws) > 0
  {
    if w > 0 { LiveAt(ws[1..], w - 1); }
  }

  /** A live worker can go on whenever the input queue is not empty. */
  lemma WorkerCanGo(s: State, w: nat) returns (a: Action)
    requires w < |s.workers| && s.workers[w] != Exited && (s.input != [] || s.workers[w] != Waiting)
    ensures Enabled(s, a) && a != Interrupt
  {
    match s.workers[w]
    case Waiting => a := Get(w);
    case Holding(_) => a := Decide(w);
    case Running(_) => a := Run(w, 0);
    case Putting(_) => a := Put(w);
  }

  lemma {:induction false} HolderOf(ws: seq<Worker>, j: Job) returns (w: nat)
    requires HeldBy(ws, j) > 0
    ensures w < |ws| && ws[w] != Exited && ws[w] != Waiting
  {
    if Has(ws[0], j) > 0 { w := 0; } else {
      w := HolderOf(ws[1..], j);
      w := w + 1;
    }
  }

  /** Fewer collected than there are jobs: some job is still elsewhere. */
  lemma SomeJobElsewhere(jobs: seq<Job>, collected: seq<Job>) returns (j: Job)
    requires |collected| < |jobs|
    ensures multiset(collected)[j] < multiset(jobs)[j]
  {
    if multiset(jobs) <= multiset(collected) { SmallerSize(multiset(jobs), multiset(collected)); }
    j :| multiset(collected)[j] < multiset(jobs)[j];
  }

  lemma SmallerSize(a: multiset<Job>, b: multiset<Job>)
    requires a <= b
    ensures |a| <= |b|
  {
    assert b == a + (b - a);
  }

  /** With a worker, or nothing to do, the pool never gets stuck: not waiting for
      jobs, not collecting, not joining. */
  lemma NeverStuck(s: State, jobs: seq<Job>) returns (a: Action)
    requires Inv(s, jobs) && s.exitCode == -1
    requires |s.workers| > 0 || jobs == []
    ensures Enabled(s, a) && a != Interrupt
  {
    if s.pending != [] {
      a := Dispatch;
    } else if s.tokensLeft > 0 {
      a := SendBreak;
    } else if |s.collected| < s.dispatched {
      if s.output != [] {
        a := Collect;
      } else {
        a := CollectorServed(s, jobs);
      }
    } else if s.joined < |s.workers| {
      if s.workers[s.joined] == Exited {
        a := Join;
      } else {
        LiveAt(s.workers, s.joined);
        a := WorkerCanGo(s, s.joined);
      }
    } else {
      a := Finish;
    }
  }

  /** The collector waits only while some worker has work to bring it. */
  lemma CollectorServed(s: State, jobs: seq<Job>) returns (a: Action)
    requires Inv(s, jobs) && s.pending == [] && s.tokensLeft == 0 && s.output == []
    requires |s.collected| < s.dispatched && |s.workers| > 0
    ensures Enabled(s, a) && a != Interrupt
  {
    var j := SomeJobElsewhere(jobs, JobsOf(s.collected));
    assert Copies(s, j) == multiset(jobs)[j];
    if HeldBy(s.workers, j) > 0 {
      var w := HolderOf(s.workers, j);
      a := WorkerCanGo(s, w);
    } else {
      assert j in TasksOf(s.input);
      assert s.workers[0] != Exited;
      a := WorkerCanGo(s, 0);
    }
  }

  // ---------------------------------------------------------- what it yields

  lemma {:induction false} TallyTotals(outcomes: seq<Outcome>)
    ensures var t := TallyOf(outcomes);
      t.passed + t.failed + t.skipped + t.crashed + t.valgrind + Interruptions(outcomes) == |outcomes|
    ensures TallyOf(outcomes).passed + TallyOf(outcomes).skipped == |outcomes|
      <==> forall i :: 0 <= i < |outcomes| ==> outcomes[i].verdict == Skipped || outcomes[i].verdict == Returned(0)
  {
    if outcomes != [] { TallyTotals(outcomes[..|outcomes| - 1]); }
  }

  /** The collecting loop over the outcomes as the output queue yields them, and
      the code the runner returns with. */
  method CollectResults(yielded: seq<Outcome>, totalTests: nat) returns (tally: Tally, exitCode: int)
    requires |yielded| == totalTests
    ensures tally == TallyOf(yielded)
    ensures exitCode == if tally.passed + tally.skipped == totalTests then 0 else 1
    ensures exitCode == 0 <==> forall i :: 0 <= i < |yielded| ==> yielded[i].verdict == Skipped || yielded[i].verdict == Returned(0)
  {
    var passed, failed, skipped, crashed, valgrind := 0, 0, 0, 0, 0;
    for i := 0 to |yielded|
      invariant Tally(passed, failed, skipped, crashed, valgrind) == TallyOf(yielded[..i])
    {
      assert yielded[..i + 1][..i] == yielded[..i];
      match yielded[i].verdict {
        case Interrupted =>
        case Skipped => skipped := skipped + 1;
        case Returned(code) =>
          if code == 0 {
            passed := passed + 1;
          } else if code == 1 {
            failed := failed + 1;
          } else if code == 2 {
            valgrind := valgrind + 1;
          } else {
            crashed := crashed + 1;
          }
      }
    }
    assert yielded[..|yielded|] == yielded;
    TallyTotals(yielded);
    tally := Tally(passed, failed, skipped, crashed, valgrind);
    exitCode := if passed + skipped == totalTests then 0 else 1;
  }

  // ------------------------------------------------------- why each verdict

  /** The k-th action ended a run of the job, with the code, on a worker that was running it. */
  ghost predicate RanAt(start: State, past: seq<Action>, k: int, w: nat, job: Job, code: int) {
    && 0 <= k < |past| && past[k] == Run(w, code)
    && exists u :: Leads(start, past[..k], u) && w < |u.workers| && u.workers[w] == Running(job)
  }

  /** Only jobs marked so are skipped, only others are run, and the code is that of
      a run; nothing is reported interrupted without an interrupt. */
  ghost predicate Justified(start: State, past: seq<Action>, o: Outcome) {
    match o.verdict
    case Skipped => o.job.isSkip
    case Returned(code) => !o.job.isSkip && exists k, w :: RanAt(start, past, k, w, o.job, code)
    case Interrupted => Interrupt in past
  }

  ghost predicate WorkerJustified(start: State, past: seq<Action>, w: Worker) {
    match w
    case Running(job) => !job.isSkip
    case Putting(o) => Justified(start, past, o)
    case _ => true
  }

  ghost predicate Explained(start: State, past: seq<Action>, s: State) {
    && (s.threadExit ==> Interrupt in past)
    && (forall w :: 0 <= w < |s.workers| ==> WorkerJustified(start, past, s.workers[w]))
    && (forall i :: 0 <= i < |s.output| ==> Justified(start, past, s.output[i]))
    && (forall i :: 0 <= i < |s.collected| ==> Justified(start, past, s.collected[i]))
  }

  lemma {:induction false} LeadsOn(s: State, actions: seq<Action>, t: State, a: Action)
    requires Leads(s, actions, t) && Enabled(t, a)
    ensures Leads(s, actions + [a], Apply(t, a))
    decreases |actions|
  {
    if actions == [] {
      assert ([] + [a])[1..] == [];
    } else {
      LeadsOn(Apply(s, actions[0]), actions[1..], t, a);
      assert (actions + [a])[1..] == actions[1..] + [a];
    }
  }

  lemma RanStays(start: State, past: seq<Action>, a: Action, k: int, w: nat, job: Job, code: int)
    requires RanAt(start, past, k, w, job, code)
    ensures RanAt(start, past + [a], k, w, job, code)
  {
    assert (past + [a])[..k] == past[..k];
  }

  lemma JustifiedStays(start: State, past: seq<Action>, a: Action, o: Outcome)
    requires Justified(start, past, o)
    ensures Justified(start, past + [a], o)
  {
    if o.verdict.Returned? {
      var k, w :| RanAt(start, past, k, w, o.job, o.verdict.code);
      RanStays(start, past, a, k, w, o.job, o.verdict.code);
    }
    hide RanAt;
  }

  lemma ExplainedStays(start: State, past: seq<Action>, a: Action, s: State)
    requires Explained(start, past, s)
    ensures Explained(start, past + [a], s)
  {
    forall o | Justified(start, past, o) ensures Justified(start, past + [a], o) { JustifiedStays(start, past, a, o); }
    hide Justified;
  }

  lemma RunJustified(start: State, past: seq<Action>, s: State, w: nat, code: int)
    requires Leads(start, past, s) && Enabled(s, Run(w, code)) && !s.workers[w].job.isSkip
    ensures Justified(start, past + [Run(w, code)], Outcome(s.workers[w].job, Returned(code)))
  {
    assert (past + [Run(w, code)])[..|past|] == past;
    assert RanAt(start, past + [Run(w, code)], |past|, w, s.workers[w].job, code);
  }

  lemma StepExplained(start: State, past: seq<Action>, s: State, a: Action)
    requires Leads(start, past, s) && Explained(start, past, s) && Enabled(s, a)
    ensures Explained(start, past + [a], Apply(s, a))
  {
    ExplainedStays(start, past, a, s);
    if a.Run? {
      assert WorkerJustified(start, past, s.workers[a.w]);
      RunJustified(start, past, s, a.w, a.code);
    }
    hide Leads, RanAt, TallyOf, Count;
  }

  lemma {:induction false} RunExplained(start: State, past: seq<Action>, s: State, actions: seq<Action>, t: State)
    requires Leads(start, past, s) && Explained(start, past, s) && Leads(s, actions, t)
    ensures Explained(start, past + actions, t)
    decreases |actions|
  {
    hide Explained, Apply, Enabled;
    if actions == [] {
      assert past + actions == past;
    } else {
      LeadsOn(start, past, s, actions[0]);
      StepExplained(start, past, s, actions[0]);
      RunExplained(start, past + [actions[0]], Apply(s, actions[0]), actions[1..], t);
      assert past + [actions[0]] + actions[1..] == past + actions;
    }
  }

  /** In every run from the start: a job collected as skipped was marked to be, one
      collected with a code was not and a worker ran it to that code, and one is
      collected as interrupted only after an interrupt. */
  lemma VerdictsJustified(jobs: seq<Job>, workers: nat, actions: seq<Action>, t: State)
    requires Leads(Start(jobs, workers), actions, t)
    ensures forall i :: 0 <= i < |t.collected| ==> Justified(Start(jobs, workers), actions, t.collected[i])
    ensures Interrupt !in actions ==>
      forall i :: 0 <= i < |t.collected| ==> (t.collected[i].verdict == Skipped <==> t.collected[i].job.isSkip)
  {
    var start := Start(jobs, workers);
    assert Explained(start, [], start);
    RunExplained(start, [], start, actions, t);
    assert [] + actions == actions;
    hide RanAt, Leads;
  }

  // ----------------------------------------------------------- what was run

  /** How many runs ended with one of the codes, or with another one when not listed. */
  ghost function Runs(actions: seq<Action>, codes: set<int>, listed: bool): nat {
    if actions == [] then 0
    else Runs(actions[..|actions| - 1], codes, listed) + if actions[|actions| - 1].Run? && (actions[|actions| - 1].code in codes) == listed then 1 else 0
  }

  ghost predicate Returns(o: Outcome, codes: set<int>, listed: bool) {
    o.verdict.Returned? && (o.verdict.code in codes) == listed
  }

  ghost function ReturnsIn(outcomes: seq<Outcome>, codes: set<int>, listed: bool): nat {
    if outcomes == [] then 0
    else ReturnsIn(outcomes[..|outcomes| - 1], codes, listed) + if Returns(outcomes[|outcomes| - 1], codes, listed) then 1 else 0
  }

  ghost function ReturnsHeld(ws: seq<Worker>, codes: set<int>, listed: bool): nat {
    if ws == [] then 0 else (if ws[0].Putting? && Returns(ws[0].outcome, codes, listed) then 1 else 0) + ReturnsHeld(ws[1..], codes, listed)
  }

  /** Every run is accounted for, on its way or collected. */
  ghost predicate RunsKept(past: seq<Action>, s: State, codes: set<int>, listed: bool) {
    Runs(past, codes, listed) == ReturnsHeld(s.workers, codes, listed) + ReturnsIn(s.output, codes, listed) + ReturnsIn(s.collected, codes, listed)
  }

  ghost function HeldReturn(w: Worker, codes: set<int>, listed: bool): nat {
    if w.Putting? && Returns(w.outcome, codes, listed) then 1 else 0
  }

  lemma {:induction false} ReturnsMove(ws: seq<Worker>, w: nat, x: Worker, codes: set<int>, listed: bool)
    requires w < |ws|
    ensures ReturnsHeld(ws[w := x], codes, listed) + HeldReturn(ws[w], codes, listed) == ReturnsHeld(ws, codes, listed) + HeldReturn(x, codes, listed)
  {
    if w == 0 {
      assert ws[w := x] == [x] + ws[1..];
    } else {
      ReturnsMove(ws[1..], w - 1, x, codes, listed);
      assert ws[w := x] == [ws[0]] + ws[1..][w - 1 := x];
    }
  }

  lemma ReturnsPush(outcomes: seq<Outcome>, o: Outcome, codes: set<int>, listed: bool)
    ensures ReturnsIn(outcomes + [o], codes, listed) == ReturnsIn(outcomes, codes, listed) + if Returns(o, codes, listed) then 1 else 0
  {
    assert (outcomes + [o])[..|outcomes|] == outcomes;
  }

  lemma {:induction false} ReturnsPop(outcomes: seq<Outcome>, codes: set<int>, listed: bool)
    requires outcomes != []
    ensures ReturnsIn(outcomes, codes, listed) == ReturnsIn(outcomes[1..], codes, listed) + if Returns(outcomes[0], codes, listed) then 1 else 0
  {
    var front, o := outcomes[..|outcomes| - 1], outcomes[|outcomes| - 1];
    if front != [] {
      ReturnsPop(front, codes, listed);
      assert outcomes[1..] == front[1..] + [o];
      ReturnsPush(front[1..], o, codes, listed);
    } else {
      assert outcomes[1..] == [] && outcomes[..0] == [];
    }
  }

  lemma StepKeepsRuns(past: seq<Action>, s: State, a: Action, codes: set<int>, listed: bool)
    requires RunsKept(past, s, codes, listed) && Enabled(s, a)
    ensures RunsKept(past + [a], Apply(s, a), codes, listed)
  {
    hide ReturnsHeld, ReturnsIn, Count;
    assert (past + [a])[..|past|] == past;
    var t := Apply(s, a);
    match a
    case Get(w) => ReturnsMove(s.workers, w, t.workers[w], codes, listed);
    case Decide(w) => ReturnsMove(s.workers, w, t.workers[w], codes, listed);
    case Run(w, code) => ReturnsMove(s.workers, w, t.workers[w], codes, listed);
    case Put(w) =>
      ReturnsMove(s.workers, w, Waiting, codes, listed);
      ReturnsPush(s.output, s.workers[w].outcome, codes, listed);
    case Collect =>
      ReturnsPop(s.output, codes, listed);
      ReturnsPush(s.collected, s.output[0], codes, listed);
    case _ =>
  }

  lemma {:induction false} RunKeepsRuns(past: seq<Action>, s: State, actions: seq<Action>, t: State, codes: set<int>, listed: bool)
    requires RunsKept(past, s, codes, listed) && Leads(s, actions, t)
    ensures RunsKept(past + actions, t, codes, listed)
    decreases |actions|
  {
    hide RunsKept, Apply, Enabled;
    if actions == [] {
      assert past + actions == past;
    } else {
      StepKeepsRuns(past, s, actions[0], codes, listed);
      RunKeepsRuns(past + [actions[0]], Apply(s, actions[0]), actions[1..], t, codes, listed);
      assert past + [actions[0]] + actions[1..] == past + actions;
    }
  }

  lemma {:induction false} NoneHeld(ws: seq<Worker>, codes: set<int>, listed: bool)
    requires forall w :: 0 <= w < |ws| ==> !ws[w].Putting?
    ensures ReturnsHeld(ws, codes, listed) == 0
  {
    if ws != [] { NoneHeld(ws[1..], codes, listed); }
  }

  /** When everything is collected, the runs are the outcomes with a code. */
  lemma RunsCollected(jobs: seq<Job>, workers: nat, actions: seq<Action>, t: State, codes: set<int>, listed: bool)
    requires Leads(Start(jobs, workers), actions, t)
    requires t.output == [] && forall w :: 0 <= w < |t.workers| ==> t.workers[w] == Exited
    ensures Runs(actions, codes, listed) == ReturnsIn(t.collected, codes, listed)
  {
    var start := Start(jobs, workers);
    NoneHeld(start.workers, codes, listed);
    RunKeepsRuns([], start, actions, t, codes, listed);
    NoneHeld(t.workers, codes, listed);
    assert [] + actions == actions;
  }

  /** The tally by codes. */
  lemma {:induction false} TallyByCode(outcomes: seq<Outcome>)
    ensures var t := TallyOf(outcomes);
      && t.passed == ReturnsIn(outcomes, {0}, true) && t.failed == ReturnsIn(outcomes, {1}, true) && t.valgrind == ReturnsIn(outcomes, {2}, true)
      && t.crashed == ReturnsIn(outcomes, {0, 1, 2}, false)
      && t.failed + t.valgrind + t.crashed == ReturnsIn(outcomes, {0}, false)
  {
    if outcomes != [] { TallyByCode(outcomes[..|outcomes| - 1]); }
  }

  /** How many jobs are marked to be skipped. */
  function Marked(jobs: seq<Job>): nat {
    if jobs == [] then 0 else (if jobs[0].isSkip then 1 else 0) + Marked(jobs[1..])
  }

  lemma {:induction false} MarkedJoin(a: seq<Job>, b: seq<Job>)
    ensures Marked(a + b) == Marked(a) + Marked(b)
  {
    if a == [] {
      assert a + b == b;
    } else {
      MarkedJoin(a[1..], b);
      assert (a + b)[1..] == a[1..] + b;
    }
  }

  lemma MarkedFirst(j: Job, after: seq<Job>)
    ensures Marked([j] + after) == Marked(after) + if j.isSkip then 1 else 0
  {
    assert ([j] + after)[1..] == after;
  }

  lemma MarkedTaken(b: seq<Job>, k: nat)
    requires k < |b|
    ensures Marked(b) == Marked(b[..k] + b[k + 1..]) + if b[k].isSkip then 1 else 0
    ensures multiset(b) == multiset(b[..k] + b[k + 1..]) + multiset{b[k]}
  {
    hide Marked;
    var before, after := b[..k], b[k + 1..];
    assert b == before + ([b[k]] + after);
    MarkedJoin(before, after);
    MarkedJoin(before, [b[k]] + after);
    MarkedFirst(b[k], after);
  }

  lemma SameWithout(a: multiset<Job>, b: multiset<Job>, j: Job)
    requires a + multiset{j} == b + multiset{j}
    ensures a == b
  {
    forall i ensures a[i] == b[i] { assert (a + multiset{j})[i] == (b + multiset{j})[i]; }
  }

  /** In whatever order the jobs come. */
  lemma {:induction false} MarkedAnyOrder(a: seq<Job>, b: seq<Job>)
    requires multiset(a) == multiset(b)
    ensures Marked(a) == Marked(b)
  {
    if a == [] {
      assert |multiset(b)| == 0;
    } else {
      assert a == [a[0]] + a[1..];
      assert a[0] in multiset(b);
      var k :| 0 <= k < |b| && b[k] == a[0];
      MarkedTaken(b, k);
      assert multiset(a) == multiset(a[1..]) + multiset{a[0]};
      SameWithout(multiset(a[1..]), multiset(b[..k] + b[k + 1..]), a[0]);
      MarkedAnyOrder(a[1..], b[..k] + b[k + 1..]);
    }
  }

  /** Without an interrupt the outcomes that are skips are those of the marked jobs. */
  lemma {:induction false} SkipsAreMarked(outcomes: seq<Outcome>)
    requires forall i :: 0 <= i < |outcomes| ==> (outcomes[i].verdict == Skipped <==> outcomes[i].job.isSkip) && outcomes[i].verdict != Interrupted
    ensures TallyOf(outcomes).skipped == Marked(JobsOf(outcomes)) && Interruptions(outcomes) == 0
  {
    if outcomes == [] {
      assert JobsOf(outcomes) == [];
    } else {
      var front, o := outcomes[..|outcomes| - 1], outcomes[|outcomes| - 1];
      SkipsAreMarked(front);
      assert JobsOf(outcomes) == JobsOf(front) + [o.job];
      MarkedJoin(JobsOf(front), [o.job]);
      assert [o.job][1..] == [];
    }
  }

  lemma OutputEmpty(t: State, jobs: seq<Job>)
    requires Conserved(t, jobs) && multiset(JobsOf(t.collected)) == multiset(jobs)
    ensures t.output == []
  {
    forall j
      ensures multiset(JobsOf(t.output))[j] == 0
    {
      assert Copies(t, j) == multiset(jobs)[j];
    }
    assert multiset(JobsOf(t.output)) == multiset{};
    assert |multiset(JobsOf(t.output))| == |t.output|;
  }

  /** When the runner returns, every job has been collected exactly once, with a
      verdict it earned, every worker has exited, and the tally counts the runs by
      their codes; the exit code is 0 exactly when every job passed or was skipped. */
  lemma RunnerReturns(jobs: seq<Job>, workers: nat, actions: seq<Action>, t: State)
    requires Leads(Start(jobs, workers), actions, t) && t.exitCode != -1
    ensures multiset(JobsOf(t.collected)) == multiset(jobs)
    ensures forall w :: 0 <= w < |t.workers| ==> t.workers[w] == Exited
    ensures forall i :: 0 <= i < |t.collected| ==> Justified(Start(jobs, workers), actions, t.collected[i])
    ensures t.tally.passed == Runs(actions, {0}, true) && t.tally.failed == Runs(actions, {1}, true) && t.tally.valgrind == Runs(actions, {2}, true)
    ensures t.tally.crashed == Runs(actions, {0, 1, 2}, false)
    ensures t.tally.passed + t.tally.failed + t.tally.skipped + t.tally.crashed + t.tally.valgrind + Interruptions(t.collected) == |jobs|
    ensures t.exitCode == 0 <==> forall i :: 0 <= i < |t.collected| ==> t.collected[i].verdict == Skipped || t.collected[i].verdict == Returned(0)
  {
    hide Copies, Tokens, Runs, ReturnsIn, Justified;
    StartInv(jobs, workers);
    RunInv(Start(jobs, workers), actions, t, jobs);
    TallyTotals(t.collected);
    AllCollected(t, jobs);
    OutputEmpty(t, jobs);
    VerdictsJustified(jobs, workers, actions, t);
    TallyByCode(t.collected);
    forall codes: set<int>, listed
      ensures Runs(actions, codes, listed) == ReturnsIn(t.collected, codes, listed)
    {
      RunsCollected(jobs, workers, actions, t, codes, listed);
    }
  }

  /** Without an interrupt: a job is skipped exactly when marked, every other job is
      run, and the exit code is 0 exactly when no run ended with another code. */
  lemma UninterruptedReturns(jobs: seq<Job>, workers: nat, actions: seq<Action>, t: State)
    requires Leads(Start(jobs, workers), actions, t) && t.exitCode != -1 && Interrupt !in actions
    ensures forall i :: 0 <= i < |t.collected| ==> (t.collected[i].verdict == Skipped <==> t.collected[i].job.isSkip)
    ensures t.tally.skipped == Marked(jobs) && Runs(actions, {}, false) == |jobs| - Marked(jobs)
    ensures t.exitCode == 0 <==> Runs(actions, {0}, false) == 0
  {
    hide Conserved, Tokens, Runs, ReturnsIn, Marked;
    var start := Start(jobs, workers);
    StartInv(jobs, workers);
    RunInv(start, actions, t, jobs);
    AllCollected(t, jobs);
    RunnerReturns(jobs, workers, actions, t);
    OutputEmpty(t, jobs);
    VerdictsJustified(jobs, workers, actions, t);
    SkipsAreMarked(t.collected);
    MarkedAnyOrder(JobsOf(t.collected), jobs);
    TallyTotals(t.collected);
    TallyByCode(t.collected);
    RunsCollected(jobs, workers, actions, t, {0}, false);
    RunsCollected(jobs, workers, actions, t, {}, false);
    EveryCode(t.collected);
  }

  /** Every outcome with a code is counted under passed or another tally. */
  lemma {:induction false} EveryCode(outcomes: seq<Outcome>)
    ensures ReturnsIn(outcomes, {}, false) == ReturnsIn(outcomes, {0}, true) + ReturnsIn(outcomes, {0}, false)
  {
    if outcomes != [] { EveryCode(outcomes[..|outcomes| - 1]); }
  }

  lemma AllCollected(t: State, jobs: seq<Job>)
    requires Conserved(t, jobs) && t.pending == [] && |t.collected| >= t.dispatched
    ensures multiset(JobsOf(t.collected)) == multiset(jobs) && |t.collected| == |jobs|
  {
    var c := multiset(JobsOf(t.collected));
    forall j ensures c[j] <= multiset(jobs)[j] { assert Copies(t, j) == multiset(jobs)[j]; }
    assert c <= multiset(jobs);
    var rest := multiset(jobs) - c;
    assert multiset(jobs) == c + rest;
    assert |multiset(jobs)| == |c| + |rest|;
  }

  /** Any run can be extended until the runner returns, when there is a worker or nothing to do. */
  lemma {:induction false} RunsComplete(s: State, jobs: seq<Job>) returns (actions: seq<Action>, t: State)
    requires Inv(s, jobs) && (|s.workers| > 0 || jobs == [])
    ensures Leads(s, actions, t) && t.exitCode != -1
    decreases Remaining(s)
  {
    if s.exitCode != -1 {
      actions, t := [], s;
    } else {
      var a := NeverStuck(s, jobs);
      StepInv(s, a, jobs);
      StepUses(s, a);
      var on;
      on, t := RunsComplete(Apply(s, a), jobs);
      actions := [a] + on;
    }
  }

  /** The worker count: all processors, or the limit when one is given and is smaller. */
  function Processors(detected: int, limit: int): int {
    if limit != 0 then (if detected < limit then detected else limit) else detected
  }

  /** As many threads as range(processors) yields. */
  function Threads(detected: int, limit: int): (n: nat)
    ensures detected >= 0 && limit == 0 ==> n == detected
    ensures detected >= 0 && limit > 0 ==> n <= detected && n <= limit && (n == detected || n == limit)
    ensures detected >= 0 && limit < 0 ==> n == 0
  {
    var p := Processors(detected, limit);
    if p < 0 then 0 else p
  }

  /** Without a worker a job is never collected: the collector blocks for ever. */
  lemma {:induction false} NoWorkerNoResult(s: State, actions: seq<Action>, t: State)
    requires Leads(s, actions, t) && s.workers == [] && s.output == [] && s.collected == [] && s.exitCode == -1
    requires s.dispatched + |s.pending| > 0
    ensures t.workers == [] && t.output == [] && t.collected == [] && t.exitCode == -1
    decreases |actions|
  {
    if actions != [] { NoWorkerNoResult(Apply(s, actions[0]), actions[1..], t); }
  }

  ghost predicate CanReturn(s: State) {
    exists actions, t :: Leads(s, actions, t) && t.exitCode != -1
  }

  /** The runner can return exactly when the process limit is not negative, or there is no job. */
  lemma ReturnsUnlessLimitNegative(jobs: seq<Job>, detected: int, limit: int)
    requires detected >= 1
    ensures CanReturn(Start(jobs, Threads(detected, limit))) <==> limit >= 0 || jobs == []
  {
    var s := Start(jobs, Threads(detected, limit));
    StartInv(jobs, Threads(detected, limit));
    if limit >= 0 || jobs == [] {
      var actions, t := RunsComplete(s, jobs);
    } else {
      forall actions, t | Leads(s, actions, t)
        ensures t.exitCode == -1
      {
        NoWorkerNoResult(s, actions, t);
      }
    }
  }
}
