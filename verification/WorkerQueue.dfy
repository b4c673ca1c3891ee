/**
 The worker queue as a step system. Any number of clients submit and shut down, any number of
 workers take and run jobs; a step is one action of one of them, and every interleaving is allowed.
 */
module WorkerQueue {
  import opened Wrappers

  /** Jobs mean nothing to the queue; numbers stand for them. */
  type Job = int

  datatype Result = Accepted | QueueClosed | QueueFull | Drained | Cancelled

  /** Where a client stands in Submit or Shutdown. */
  datatype Client =
    | Out(last: Option<Result>)
    | SubmitWaiting(job: Job)
    | SubmitHolding(job: Job)
    | SubmitSending(job: Job)
    | SubmitLeaving(result: Result)
    | ShutdownWaiting
    | ShutdownHolding
    | ShutdownClosing
    | ShutdownLeaving
    | Draining

  datatype Worker = Receiving | Running(job: Job) | Exited

  /** The queue's memory, the positions of all clients and workers, and the history: the jobs
      accepted and taken in order, the jobs handled, and whether the channel was misused. */
  datatype State = State(
    size: nat,
    buffer: seq<Job>,
    channelClosed: bool,
    closed: bool,
    holder: Option<nat>,
    clients: seq<Client>,
    workers: seq<Worker>,
    accepted: seq<Job>,
    taken: seq<Job>,
    handled: multiset<Job>,
    misused: bool)

  datatype Step =
    | CallSubmit(c: nat, job: Job)
    | CallShutdown(c: nat)
    | Lock(c: nat)
    | CheckClosed(c: nat)
    | Send(c: nat)
    | Close(c: nat)
    | Unlock(c: nat)
    | ReturnDrained(c: nat)
    | ReturnCancelled(c: nat)
    | Take(w: nat)
    | Finish(w: nat, panicked: bool)
    | Exit(w: nat)

  // ---------- The steps ----------

  predicate IsWorkerStep(step: Step) {
    step.Take? || step.Finish? || step.Exit?
  }

  predicate AllExited(s: State) {
    forall w :: 0 <= w < |s.workers| ==> s.workers[w] == Exited
  }

  predicate Enabled(s: State, step: Step) {
    if IsWorkerStep(step) then step.w < |s.workers| && WorkerEnabled(s, step)
    else step.c < |s.clients| && ClientEnabled(s, step, s.clients[step.c])
  }

  predicate WorkerEnabled(s: State, step: Step)
    requires IsWorkerStep(step) && step.w < |s.workers|
  {
    match step
    case Take(w) => s.workers[w] == Receiving && s.buffer != []
    case Finish(w, _) => s.workers[w].Running?
    case Exit(w) => s.workers[w] == Receiving && s.buffer == [] && s.channelClosed
  }

  predicate ClientEnabled(s: State, step: Step, pc: Client)
    requires !IsWorkerStep(step)
  {
    match step
    case CallSubmit(_, _) => pc.Out?
    case CallShutdown(_) => pc.Out?
    case Lock(_) => s.holder == None && (pc.SubmitWaiting? || pc.ShutdownWaiting?)
    case CheckClosed(_) => pc.SubmitHolding? || pc.ShutdownHolding?
    case Send(_) => pc.SubmitSending?
    case Close(_) => pc.ShutdownClosing?
    case Unlock(_) => pc.SubmitLeaving? || pc.ShutdownLeaving?
    case ReturnDrained(_) => pc.Draining? && AllExited(s)
    case ReturnCancelled(_) => pc.Draining?
  }

  function Apply(s: State, step: Step): State
    requires Enabled(s, step)
  {
    if IsWorkerStep(step) then WorkerApply(s, step) else ClientApply(s, step)
  }

  /** A panicking handler is recovered: its job counts as handled and its worker goes on. */
  function WorkerApply(s: State, step: Step): State
    requires IsWorkerStep(step) && Enabled(s, step)
  {
    match step
    case Take(w) =>
      s.(workers := s.workers[w := Running(s.buffer[0])], buffer := s.buffer[1..], taken := s.taken + [s.buffer[0]])
    case Finish(w, _) =>
      s.(workers := s.workers[w := Receiving], handled := s.handled + multiset{s.workers[w].job})
    case Exit(w) => s.(workers := s.workers[w := Exited])
  }

  function MoveTo(s: State, c: nat, pc: Client): State
    requires c < |s.clients|
  {
    s.(clients := s.clients[c := pc])
  }

  /** Sending on a closed channel and closing it again are misuses; they panic in the original. */
  function ClientApply(s: State, step: Step): State
    requires !IsWorkerStep(step) && Enabled(s, step)
  {
    var pc := s.clients[step.c];
    match step
    case CallSubmit(c, job) => MoveTo(s, c, SubmitWaiting(job))
    case CallShutdown(c) => MoveTo(s, c, ShutdownWaiting)
    case Lock(c) =>
      MoveTo(s, c, if pc.SubmitWaiting? then SubmitHolding(pc.job) else ShutdownHolding).(holder := Some(c))
    case CheckClosed(c) =>
      if pc.SubmitHolding? then MoveTo(s, c, if s.closed then SubmitLeaving(QueueClosed) else SubmitSending(pc.job))
      else if s.closed then MoveTo(s, c, ShutdownLeaving)
      else MoveTo(s, c, ShutdownClosing).(closed := true)
    case Send(c) =>
      if s.channelClosed then s.(misused := true)
      else if |s.buffer| < s.size then
        MoveTo(s, c, SubmitLeaving(Accepted)).(buffer := s.buffer + [pc.job], accepted := s.accepted + [pc.job])
      else MoveTo(s, c, SubmitLeaving(QueueFull))
    case Close(c) =>
      if s.channelClosed then s.(misused := true)
      else MoveTo(s, c, ShutdownLeaving).(channelClosed := true)
    case Unlock(c) =>
      MoveTo(s, c, if pc.SubmitLeaving? then Out(Some(pc.result)) else Draining).(holder := None)
    case ReturnDrained(c) => MoveTo(s, c, Out(Some(Drained)))
    case ReturnCancelled(c) => MoveTo(s, c, Out(Some(Cancelled)))
  }

  /** s' is what a run of these steps, each enabled in its turn, makes of s. */
  ghost predicate Reaches(s: State, steps: seq<Step>, s': State)
    decreases |steps|
  {
    if steps == [] then s' == s
    else Enabled(s, steps[0]) && Reaches(Apply(s, steps[0]), steps[1..], s')
  }

  function AtLeastOne(n: int): (r: nat)
    ensures r >= 1 && (n >= 1 ==> r == n)
  {
    if n < 1 then 1 else n
  }

  /** A queue without the clamps on size and workers, before any call. */
  function Fresh(size: nat, workers: nat, clients: nat): State {
    State(size, [], false, false, None, seq(clients, _ => Out(None)), seq(workers, _ => Receiving), [], [], multiset{}, false)
  }

  function New(size: int, workers: int, clients: nat): State {
    Fresh(AtLeastOne(size), AtLeastOne(workers), clients)
  }

  // ---------- What every step keeps ----------

  /** The job that a worker has in hand. */
  function InHand(w: Worker): multiset<Job> {
    if w.Running? then multiset{w.job} else multiset{}
  }

  function InFlight(ws: seq<Worker>): multiset<Job> {
    if ws == [] then multiset{} else InHand(ws[0]) + InFlight(ws[1..])
  }

  /** Accepted jobs are the taken ones followed by the buffered ones; taken jobs are in flight or
      handled. */
  ghost predicate Conserved(s: State) {
    && s.accepted == s.taken + s.buffer
    && multiset(s.taken) == s.handled + InFlight(s.workers)
    && |s.buffer| <= s.size
  }

  predicate HoldsMutex(pc: Client) {
    || pc.SubmitHolding? || pc.SubmitSending? || pc.SubmitLeaving?
    || pc.ShutdownHolding? || pc.ShutdownClosing? || pc.ShutdownLeaving?
  }

  ghost predicate MutualExclusion(s: State) {
    && (forall c: nat :: c < |s.clients| ==> (HoldsMutex(s.clients[c]) <==> s.holder == Some(c)))
    && (s.holder.Some? ==> s.holder.value < |s.clients|)
  }

  /** What a client's position tells about the two closed flags. */
  predicate FlagsFit(s: State, pc: Client) {
    match pc
    case SubmitSending(_) => !s.closed
    case ShutdownClosing => s.closed && !s.channelClosed
    case ShutdownLeaving => s.channelClosed
    case Draining => s.channelClosed
    case Out(Some(Drained)) => s.channelClosed && AllExited(s)
    case Out(Some(Cancelled)) => s.channelClosed
    case SubmitLeaving(r) => r == Accepted || r == QueueClosed || r == QueueFull
    case _ => true
  }

  ghost predicate ClosingInProgress(s: State) {
    exists c: nat :: c < |s.clients| && s.clients[c] == ShutdownClosing
  }

  ghost predicate Disciplined(s: State) {
    && !s.misused
    && (forall c: nat :: c < |s.clients| ==> FlagsFit(s, s.clients[c]))
    && (s.channelClosed ==> s.closed)
    && (s.closed && !s.channelClosed ==> ClosingInProgress(s))
  }

  ghost predicate ExitsAreLate(s: State) {
    forall w: nat :: w < |s.workers| && s.workers[w] == Exited ==> s.channelClosed && s.buffer == []
  }

  ghost predicate Inv(s: State) {
    Conserved(s) && MutualExclusion(s) && Disciplined(s) && ExitsAreLate(s) && |s.workers| >= 1
  }

  lemma AddFirst(first: multiset<Job>, a: multiset<Job>, b: multiset<Job>, c: multiset<Job>, d: multiset<Job>)
    requires a + b == c + d
    ensures (first + a) + b == (first + c) + d
  {
    assert (first + a) + b == first + (a + b);
  }

  lemma {:induction false} InFlightUpdate(ws: seq<Worker>, i: nat, w: Worker)
    requires i < |ws|
    ensures InFlight(ws[i := w]) + InHand(ws[i]) == InFlight(ws) + InHand(w)
  {
    hide InHand;
    var rest := ws[1..];
    if i == 0 {
      assert ws[0 := w][1..] == rest;
    } else {
      assert ws[i := w][1..] == rest[i - 1 := w];
      InFlightUpdate(rest, i - 1, w);
      AddFirst(InHand(ws[0]), InFlight(rest[i - 1 := w]), InHand(ws[i]), InFlight(rest), InHand(w));
    }
  }

  lemma {:induction false} NothingInFlight(ws: seq<Worker>)
    requires forall w :: 0 <= w < |ws| ==> !ws[w].Running?
    ensures InFlight(ws) == multiset{}
  {
    if ws != [] {
      NothingInFlight(ws[1..]);
    }
  }

  lemma NewIsInv(size: int, workers: int, clients: nat)
    ensures Inv(New(size, workers, clients))
  {
    var s := New(size, workers, clients);
    NothingInFlight(s.workers);
  }

  /** A job that goes into a worker's hand, or out of it to the handled ones. */
  lemma Transfer(jobs: multiset<Job>, handled: multiset<Job>, before: multiset<Job>, after: multiset<Job>,
                 job: multiset<Job>)
    requires jobs == handled + before
    ensures after + multiset{} == before + job ==> jobs + job == handled + after
    ensures after + job == before + multiset{} ==> jobs == (handled + job) + after
  {
    assert after + multiset{} == after && before + multiset{} == before;
    assert (handled + before) + job == handled + (before + job);
    assert (handled + job) + after == handled + (after + job);
  }

  lemma ConservedTake(s: State, w: nat)
    requires Conserved(s) && Enabled(s, Take(w))
    ensures Conserved(Apply(s, Take(w)))
  {
    hide InFlight;
    var s', job := Apply(s, Take(w)), multiset{s.buffer[0]};
    InFlightUpdate(s.workers, w, s'.workers[w]);
    Transfer(multiset(s.taken), s.handled, InFlight(s.workers), InFlight(s'.workers), job);
    assert s.buffer == [s.buffer[0]] + s.buffer[1..];
    assert multiset(s'.taken) == multiset(s.taken) + job;
  }

  lemma ConservedFinish(s: State, w: nat, panicked: bool)
    requires Conserved(s) && Enabled(s, Finish(w, panicked))
    ensures Conserved(Apply(s, Finish(w, panicked)))
  {
    hide InFlight;
    var s' := Apply(s, Finish(w, panicked));
    InFlightUpdate(s.workers, w, s'.workers[w]);
    Transfer(multiset(s.taken), s.handled, InFlight(s.workers), InFlight(s'.workers), multiset{s.workers[w].job});
  }

  lemma ConservedExit(s: State, w: nat)
    requires Conserved(s) && Enabled(s, Exit(w))
    ensures Conserved(Apply(s, Exit(w)))
  {
    hide InFlight;
    var s' := Apply(s, Exit(w));
    InFlightUpdate(s.workers, w, s'.workers[w]);
    Transfer(multiset(s.taken), s.handled, InFlight(s.workers), InFlight(s'.workers), multiset{});
  }

  lemma ConservedClient(s: State, step: Step)
    requires Conserved(s) && Enabled(s, step) && !IsWorkerStep(step)
    ensures Conserved(Apply(s, step))
  {
    hide InFlight, WorkerApply, FlagsFit;
  }

  lemma ConservedStep(s: State, step: Step)
    requires Conserved(s) && Enabled(s, step)
    ensures Conserved(Apply(s, step))
  {
    hide InFlight, Apply, Enabled;
    match step
    case Take(w) => ConservedTake(s, w);
    case Finish(w, panicked) => ConservedFinish(s, w, panicked);
    case Exit(w) => ConservedExit(s, w);
    case _ => ConservedClient(s, step);
  }

  lemma MutualExclusionStep(s: State, step: Step)
    requires MutualExclusion(s) && Enabled(s, step)
    ensures MutualExclusion(Apply(s, step))
  {
    if !IsWorkerStep(step) {
      var s' := Apply(s, step);
      forall c: nat | c < |s'.clients|
        ensures HoldsMutex(s'.clients[c]) <==> s'.holder == Some(c)
      {
        assert HoldsMutex(s.clients[c]) <==> s.holder == Some(c);
        assert HoldsMutex(s.clients[step.c]) <==> s.holder == Some(step.c);
      }
    }
  }

  lemma DisciplinedStep(s: State, step: Step)
    requires Inv(s) && Enabled(s, step)
    ensures Disciplined(Apply(s, step))
  {
    var s' := Apply(s, step);
    if IsWorkerStep(step) {
      WorkerKeepsFlags(s, step);
    } else {
      var me := step.c;
      assert FlagsFit(s, s.clients[me]);
      assert HoldsMutex(s.clients[me]) <==> s.holder == Some(me);
      forall c: nat | c < |s'.clients|
        ensures FlagsFit(s', s'.clients[c])
      {
        assert FlagsFit(s, s.clients[c]);
        assert HoldsMutex(s.clients[c]) <==> s.holder == Some(c);
      }
      ClosingStays(s, step);
    }
  }

  lemma WorkerKeepsFlags(s: State, step: Step)
    requires Inv(s) && Enabled(s, step) && IsWorkerStep(step)
    ensures Disciplined(Apply(s, step))
  {
    var s' := Apply(s, step);
    forall c: nat | c < |s'.clients|
      ensures FlagsFit(s', s'.clients[c])
    {
      assert FlagsFit(s, s.clients[c]);
    }
    if ClosingInProgress(s) {
      var c: nat :| c < |s.clients| && s.clients[c] == ShutdownClosing;
      assert s'.clients[c] == ShutdownClosing;
    }
  }

  lemma ClosingStays(s: State, step: Step)
    requires Inv(s) && Enabled(s, step) && !IsWorkerStep(step)
    ensures var s' := Apply(s, step); s'.closed && !s'.channelClosed ==> ClosingInProgress(s')
  {
    var s' := Apply(s, step);
    if ClosingInProgress(s) {
      var c: nat :| c < |s.clients| && s.clients[c] == ShutdownClosing;
      assert s'.clients[c] == ShutdownClosing || s'.channelClosed;
    }
    assert s'.clients[step.c] == ShutdownClosing ==> ClosingInProgress(s');
  }

  /** The mutex makes the check and the send one: whoever sends, sends on an open channel. */
  lemma SendMeansOpen(s: State, step: Step)
    requires Inv(s) && Enabled(s, step)
    ensures step.Send? ==> !s.closed && !s.channelClosed
  {
    assert !IsWorkerStep(step) ==> FlagsFit(s, s.clients[step.c]);
  }

  lemma ExitsAreLateStep(s: State, step: Step)
    requires Inv(s) && Enabled(s, step)
    ensures ExitsAreLate(Apply(s, step))
  {
    SendMeansOpen(s, step);
  }

  /** Every step of any client or worker keeps the invariant. */
  lemma InvStep(s: State, step: Step)
    requires Inv(s) && Enabled(s, step)
    ensures Inv(Apply(s, step))
  {
    ConservedStep(s, step);
    MutualExclusionStep(s, step);
    DisciplinedStep(s, step);
    ExitsAreLateStep(s, step);
  }

  lemma {:induction false} InvRun(s: State, steps: seq<Step>, s': State)
    requires Inv(s) && Reaches(s, steps, s')
    ensures Inv(s')
    decreases |steps|
  {
    if steps != [] {
      InvStep(s, steps[0]);
      InvRun(Apply(s, steps[0]), steps[1..], s');
    }
  }

  // ---------- What holds of every run ----------

  /** In every interleaving: accepted jobs are the buffered, running and handled ones; jobs are taken
      in the order of acceptance; the buffer stays within its size; the channel is never misused; at
      most one client is in a critical section; no worker has left jobs behind. */
  lemma EveryRunIsSafe(size: int, workers: int, clients: nat, steps: seq<Step>, s: State)
    requires Reaches(New(size, workers, clients), steps, s)
    ensures multiset(s.accepted) == multiset(s.buffer) + InFlight(s.workers) + s.handled
    ensures s.taken <= s.accepted && s.buffer == s.accepted[|s.taken|..]
    ensures |s.buffer| <= s.size && s.size == AtLeastOne(size) && |s.workers| == AtLeastOne(workers)
    ensures !s.misused
    ensures forall c, d :: 0 <= c < d < |s.clients| ==> !(HoldsMutex(s.clients[c]) && HoldsMutex(s.clients[d]))
    ensures forall w :: 0 <= w < |s.workers| && s.workers[w] == Exited ==> s.channelClosed && s.buffer == []
  {
    NewIsInv(size, workers, clients);
    InvRun(New(size, workers, clients), steps, s);
    SizesStay(New(size, workers, clients), steps, s);
  }

  lemma {:induction false} SizesStay(s: State, steps: seq<Step>, s': State)
    requires Reaches(s, steps, s')
    ensures s'.size == s.size && |s'.workers| == |s.workers| && |s'.clients| == |s.clients|
    decreases |steps|
  {
    if steps != [] {
      SizesStay(Apply(s, steps[0]), steps[1..], s');
    }
  }

  /** When Shutdown has returned nil, every accepted job has been handled, exactly once. */
  lemma DrainedMeansAllHandled(size: int, workers: int, clients: nat, steps: seq<Step>, s: State, c: nat)
    requires Reaches(New(size, workers, clients), steps, s)
    requires c < |s.clients| && s.clients[c] == Out(Some(Drained))
    ensures s.handled == multiset(s.accepted) && s.buffer == [] && AllExited(s)
  {
    NewIsInv(size, workers, clients);
    InvRun(New(size, workers, clients), steps, s);
    assert FlagsFit(s, s.clients[c]);
    assert s.workers[0] == Exited;
    NothingInFlight(s.workers);
    assert s.accepted == s.taken;
  }

  /** Once the queue is closed no job is accepted any more, whatever else happens. */
  lemma {:induction false} ClosedAcceptsNothing(s: State, steps: seq<Step>, s': State)
    requires Inv(s) && s.closed && Reaches(s, steps, s')
    ensures s'.closed && s'.accepted == s.accepted && (s.channelClosed ==> s'.channelClosed)
    decreases |steps|
  {
    if steps != [] {
      SendMeansOpen(s, steps[0]);
      InvStep(s, steps[0]);
      ClosedAcceptsNothing(Apply(s, steps[0]), steps[1..], s');
    }
  }

  // ---------- Draining ----------

  function Weight(w: Worker): nat {
    match w
    case Receiving => 1
    case Running(_) => 2
    case Exited => 0
  }

  function TotalWeight(ws: seq<Worker>): nat {
    if ws == [] then 0 else Weight(ws[0]) + TotalWeight(ws[1..])
  }

  /** The work left: two steps for a buffered job, one for a running job, one for a live worker. */
  function WorkLeft(s: State): nat {
    2 * |s.buffer| + TotalWeight(s.workers)
  }

  function WorkerSteps(steps: seq<Step>): nat {
    if steps == [] then 0 else (if IsWorkerStep(steps[0]) then 1 else 0) + WorkerSteps(steps[1..])
  }

  lemma {:induction false} WeightUpdate(ws: seq<Worker>, i: nat, w: Worker)
    requires i < |ws|
    ensures TotalWeight(ws[i := w]) + Weight(ws[i]) == TotalWeight(ws) + Weight(w)
  {
    if i == 0 {
      assert ws[0 := w][1..] == ws[1..];
    } else {
      assert ws[i := w][1..] == ws[1..][i - 1 := w];
      WeightUpdate(ws[1..], i - 1, w);
    }
  }

  lemma {:induction false} NoWeightMeansExited(ws: seq<Worker>)
    ensures TotalWeight(ws) == 0 <==> forall w :: 0 <= w < |ws| ==> ws[w] == Exited
  {
    if ws != [] {
      NoWeightMeansExited(ws[1..]);
      assert forall w :: 0 < w < |ws| ==> ws[w] == ws[1..][w - 1];
    }
  }

  /** After the queue is closed, a worker step lowers the work left by exactly one and no other step
      changes it. */
  lemma WorkStep(s: State, step: Step)
    requires Inv(s) && s.closed && Enabled(s, step)
    ensures WorkLeft(Apply(s, step)) == WorkLeft(s) - if IsWorkerStep(step) then 1 else 0
  {
    var s' := Apply(s, step);
    if IsWorkerStep(step) {
      WeightUpdate(s.workers, step.w, s'.workers[step.w]);
    } else {
      SendMeansOpen(s, step);
    }
  }

  /** In any run of a closed queue, the work left and the worker steps taken add up to the work there
      was: at most that many worker steps can happen, in whatever order. */
  lemma {:induction false} WorkIsSpentOnce(s: State, steps: seq<Step>, s': State)
    requires Inv(s) && s.closed && Reaches(s, steps, s')
    ensures WorkLeft(s') + WorkerSteps(steps) == WorkLeft(s)
    decreases |steps|
  {
    if steps != [] {
      WorkStep(s, steps[0]);
      InvStep(s, steps[0]);
      assert Apply(s, steps[0]).closed;
      WorkIsSpentOnce(Apply(s, steps[0]), steps[1..], s');
    }
  }

  /** With the channel closed, some worker step is possible until all workers have exited. */
  lemma SomeWorkerCanStep(s: State)
    requires Inv(s) && s.channelClosed
    ensures !AllExited(s) <==> exists step :: IsWorkerStep(step) && Enabled(s, step)
  {
    if !AllExited(s) {
      var w :| 0 <= w < |s.workers| && s.workers[w] != Exited;
      var step := if s.workers[w].Running? then Finish(w, false) else if s.buffer != [] then Take(w) else Exit(w);
      assert IsWorkerStep(step) && Enabled(s, step);
    }
  }

  /** The run is over for the workers exactly when the work left is spent; then everything accepted
      has been handled and a waiting Shutdown can return nil. */
  lemma SpentMeansDrained(s: State)
    requires Inv(s) && s.channelClosed
    ensures WorkLeft(s) == 0 <==> AllExited(s)
    ensures AllExited(s) ==> s.handled == multiset(s.accepted)
    ensures AllExited(s) ==> forall c: nat :: c < |s.clients| && s.clients[c] == Draining ==> Enabled(s, ReturnDrained(c))
  {
    NoWeightMeansExited(s.workers);
    if AllExited(s) {
      assert s.workers[0] == Exited;
      NothingInFlight(s.workers);
      assert s.accepted == s.taken;
    }
  }

  /** From a closed channel, whatever the interleaving: the workers have at most as many steps as
      there was work left, they have exited exactly when they have taken them all, and then exactly
      the jobs accepted by the time of the close have been handled. */
  lemma ClosedQueueDrains(s: State, steps: seq<Step>, s': State)
    requires Inv(s) && s.channelClosed && Reaches(s, steps, s')
    ensures WorkerSteps(steps) <= WorkLeft(s)
    ensures AllExited(s') <==> WorkerSteps(steps) == WorkLeft(s)
    ensures AllExited(s') ==> s'.handled == multiset(s.accepted)
    ensures !AllExited(s') ==> exists step :: IsWorkerStep(step) && Enabled(s', step)
  {
    hide Reaches, AllExited, Enabled;
    InvRun(s, steps, s');
    assert s.closed;
    ClosedAcceptsNothing(s, steps, s');
    WorkIsSpentOnce(s, steps, s');
    SpentMeansDrained(s');
    SomeWorkerCanStep(s');
  }

  /** No client waits for the mutex in vain: while one waits, it or the holder can take a step. */
  lemma MutexIsNeverStuck(s: State, c: nat)
    requires Inv(s) && c < |s.clients| && (s.clients[c].SubmitWaiting? || s.clients[c].ShutdownWaiting?)
    ensures Enabled(s, Lock(c))
         || (s.holder.Some? && exists step :: !IsWorkerStep(step) && Enabled(s, step) && step.c == s.holder.value)
  {
    if s.holder.Some? {
      var h := s.holder.value;
      assert HoldsMutex(s.clients[h]);
      var pc := s.clients[h];
      var step := if pc.SubmitHolding? || pc.ShutdownHolding? then CheckClosed(h)
                  else if pc.SubmitSending? then Send(h)
                  else if pc.ShutdownClosing? then Close(h)
                  else Unlock(h);
      assert Enabled(s, step);
    }
  }

  // ---------- Why at least one worker ----------

  lemma {:induction false} Extend(s0: State, steps: seq<Step>, s: State, step: Step)
    requires Reaches(s0, steps, s) && Enabled(s, step)
    ensures Reaches(s0, steps + [step], Apply(s, step))
    decreases |steps|
  {
    hide Apply, Enabled;
    if steps == [] {
      assert [] + [step] == [step] && [step][1..] == [];
    } else {
      assert (steps + [step])[1..] == steps[1..] + [step];
      Extend(Apply(s0, steps[0]), steps[1..], s, step);
    }
  }

  lemma Then(s0: State, steps: seq<Step>, s: State, step: Step) returns (steps': seq<Step>, s': State)
    requires Reaches(s0, steps, s) && Enabled(s, step)
    ensures Reaches(s0, steps', s') && steps' == steps + [step] && s' == Apply(s, step)
  {
    Extend(s0, steps, s, step);
    steps', s' := steps + [step], Apply(s, step);
  }

  lemma {:induction false} Concat(s: State, first: seq<Step>, mid: State, second: seq<Step>, s': State)
    requires Reaches(s, first, mid) && Reaches(mid, second, s')
    ensures Reaches(s, first + second, s')
    decreases |first|
  {
    hide Apply, Enabled;
    if first == [] {
      assert [] + second == second;
    } else {
      assert (first + second)[1..] == first[1..] + second;
      Concat(Apply(s, first[0]), first[1..], mid, second, s');
    }
  }

  /** One client between calls, nobody in a critical section. */
  predicate Quiet(s: State) {
    |s.clients| == 1 && s.clients[0].Out? && s.holder == None && (s.closed ==> s.channelClosed)
  }

  function SubmitResult(s: State): Result {
    if s.closed then QueueClosed else if |s.buffer| < s.size then Accepted else QueueFull
  }

  /** Submit without interruption: lock, check, send when open, unlock. */
  lemma SubmitAlone(s: State, job: Job) returns (steps: seq<Step>, s': State)
    requires Quiet(s) && (s.channelClosed ==> s.closed)
    ensures Reaches(s, steps, s')
    ensures var more := if SubmitResult(s) == Accepted then [job] else [];
            s' == s.(clients := [Out(Some(SubmitResult(s)))], buffer := s.buffer + more, accepted := s.accepted + more)
  {
    hide Reaches;
    NoSteps(s);
    steps, s' := Then(s, [], s, CallSubmit(0, job));
    steps, s' := Then(s, steps, s', Lock(0));
    assert s' == s.(clients := [SubmitHolding(job)], holder := Some(0));
    steps, s' := Then(s, steps, s', CheckClosed(0));
    if !s.closed {
      assert s' == s.(clients := [SubmitSending(job)], holder := Some(0));
      steps, s' := Then(s, steps, s', Send(0));
    }
    assert s'.clients == [SubmitLeaving(SubmitResult(s))];
    steps, s' := Then(s, steps, s', Unlock(0));
  }

  /** The first half of Shutdown without interruption: it closes the channel if nobody has. */
  lemma CloseAlone(s: State) returns (steps: seq<Step>, s': State)
    requires Quiet(s) && (s.channelClosed ==> s.closed)
    ensures Reaches(s, steps, s')
    ensures s' == s.(clients := [Draining], closed := true, channelClosed := true)
  {
    hide Reaches;
    NoSteps(s);
    steps, s' := Then(s, [], s, CallShutdown(0));
    steps, s' := Then(s, steps, s', Lock(0));
    assert s' == s.(clients := [ShutdownHolding], holder := Some(0));
    steps, s' := Then(s, steps, s', CheckClosed(0));
    if !s.closed {
      assert s' == s.(clients := [ShutdownClosing], holder := Some(0), closed := true);
      steps, s' := Then(s, steps, s', Close(0));
    }
    assert s' == s.(clients := [ShutdownLeaving], holder := Some(0), closed := true, channelClosed := true);
    steps, s' := Then(s, steps, s', Unlock(0));
  }

  /** A worker takes the first buffered job and runs it. */
  lemma TakeAndFinish(s0: State, before: seq<Step>, s: State, w: nat) returns (steps: seq<Step>, s': State)
    requires Reaches(s0, before, s) && w < |s.workers| && s.workers[w] == Receiving && s.buffer != []
    ensures Reaches(s0, steps, s')
    ensures s' == s.(buffer := s.buffer[1..], taken := s.taken + [s.buffer[0]], handled := s.handled + multiset{s.buffer[0]})
  {
    hide Reaches;
    steps, s' := Then(s0, before, s, Take(w));
    steps, s' := Then(s0, steps, s', Finish(w, false));
    assert s.workers[w := Running(s.buffer[0])][w := Receiving] == s.workers;
  }

  /** With no workers, Shutdown could return nil although an accepted job was never handled. */
  lemma WithoutWorkersJobsAreLost() returns (steps: seq<Step>, s: State)
    ensures Reaches(Fresh(1, 0, 1), steps, s)
    ensures s.clients == [Out(Some(Drained))] && s.accepted == [7] && s.handled == multiset{}
  {
    hide Reaches;
    var s0 := Fresh(1, 0, 1);
    var more;
    steps, s := SubmitAlone(s0, 7);
    var mid := s;
    more, s := CloseAlone(mid);
    Concat(s0, steps, mid, more, s);
    steps, s := Then(s0, steps + more, s, ReturnDrained(0));
  }

  lemma NoSteps(s: State)
    ensures Reaches(s, [], s)
  {
  }

  // ---------- The queue itself ----------

  /** The queue object, seen between calls of one client. Each method is one call, or one stretch
      of a call, that runs without interruption; its contract names the steps it takes. */
  class Queue {
    const size: nat
    var jobs: seq<Job>
    var channelClosed: bool
    var closed: bool
    var workers: seq<Worker>
    ghost var client: Client
    ghost var accepted: seq<Job>
    ghost var taken: seq<Job>
    ghost var handled: multiset<Job>

    ghost function View(): State
      reads this
    {
      State(size, jobs, channelClosed, closed, None, [client], workers, accepted, taken, handled, false)
    }

    constructor (size: int, workers: int)
      ensures View() == New(size, workers, 1)
    {
      this.size := AtLeastOne(size);
      var n := AtLeastOne(workers);
      jobs, channelClosed, closed := [], false, false;
      this.workers := seq(n, _ => Receiving);
      client, accepted, taken, handled := Out(None), [], [], multiset{};
    }

    /** Lock, check, send when open, unlock. */
    method Submit(job: Job) returns (r: Result, ghost steps: seq<Step>)
      requires Inv(View()) && client.Out?
      modifies this
      ensures Reaches(old(View()), steps, View()) && client == Out(Some(r))
      ensures r == if old(closed) then QueueClosed else if |old(jobs)| < size then Accepted else QueueFull
      ensures jobs == old(jobs) + if r == Accepted then [job] else []
      ensures accepted == old(accepted) + if r == Accepted then [job] else []
      ensures closed == old(closed) && channelClosed == old(channelClosed)
      ensures workers == old(workers) && taken == old(taken) && handled == old(handled)
    {
      hide Reaches, Inv;
      ghost var s;
      InvBetweenCalls(View());
      steps, s := SubmitAlone(View(), job);
      if closed {
        r := QueueClosed;
      } else if |jobs| < size {
        jobs, accepted := jobs + [job], accepted + [job];
        r := Accepted;
      } else {
        r := QueueFull;
      }
      client := Out(Some(r));
      assert View() == s;
    }

    /** The first half of Shutdown: closes the queue once, however often it is called. */
    method StartShutdown() returns (ghost steps: seq<Step>)
      requires Inv(View()) && client.Out?
      modifies this
      ensures Reaches(old(View()), steps, View()) && client == Draining && closed && channelClosed
      ensures jobs == old(jobs) && workers == old(workers)
      ensures accepted == old(accepted) && taken == old(taken) && handled == old(handled)
    {
      hide Reaches, Inv;
      ghost var s;
      InvBetweenCalls(View());
      steps, s := CloseAlone(View());
      if !closed {
        closed := true;
        channelClosed := true;
      }
      client := Draining;
      assert View() == s;
    }

    /** The second half of Shutdown: returns once all workers have exited or the context is cancelled;
        None means that it goes on waiting. */
    method FinishShutdown(cancelled: bool) returns (r: Option<Result>, ghost steps: seq<Step>)
      requires Inv(View()) && client == Draining
      modifies this
      ensures Reaches(old(View()), steps, View())
      ensures r == Some(Drained) ==> handled == multiset(accepted) && jobs == []
      ensures r == None <==> !cancelled && !AllExited(View())
      ensures r.Some? ==> r.value == Drained || (r.value == Cancelled && cancelled)
      ensures client == if r == None then old(client) else Out(r)
      ensures jobs == old(jobs) && workers == old(workers) && closed == old(closed) && channelClosed == old(channelClosed)
      ensures accepted == old(accepted) && taken == old(taken) && handled == old(handled)
    {
      hide Reaches, Inv, WorkLeft;
      ghost var s0 := View();
      ghost var s := s0;
      NoSteps(s0);
      steps := [];
      DrainingIsClosed(s0);
      SpentMeansDrained(s0);
      var w := 0;
      while w < |workers| && workers[w] == Exited
        invariant 0 <= w <= |workers|
        invariant forall k :: 0 <= k < w ==> workers[k] == Exited
      {
        w := w + 1;
      }
      if w == |workers| {
        r := Some(Drained);
        steps, s := Then(s0, steps, s, ReturnDrained(0));
        client := Out(r);
      } else if cancelled {
        r := Some(Cancelled);
        steps, s := Then(s0, steps, s, ReturnCancelled(0));
        client := Out(r);
      } else {
        r := None;
      }
      assert View() == s;
    }

    /** A worker that is scheduled alone: it takes and runs the buffered jobs one by one, then exits if
        the channel is closed and goes back to waiting if not. */
    method Run(w: nat) returns (ghost steps: seq<Step>)
      requires Inv(View()) && w < |workers| && workers[w] == Receiving
      modifies this`jobs, this`workers, this`taken, this`handled
      ensures Reaches(old(View()), steps, View())
      ensures jobs == [] && taken == accepted && handled == old(handled) + multiset(old(jobs))
      ensures workers == if channelClosed then old(workers)[w := Exited] else old(workers)
    {
      hide Reaches, Inv;
      ghost var s0 := View();
      ghost var s := s0;
      InvBetweenCalls(s0);
      NoSteps(s0);
      steps := [];
      while |jobs| > 0
        invariant w < |workers| && workers == old(workers)
        invariant View() == s && Reaches(s0, steps, s)
        invariant accepted == taken + jobs && handled + multiset(jobs) == old(handled) + multiset(old(jobs))
      {
        assert jobs == [jobs[0]] + jobs[1..];
        steps, s := TakeAndFinish(s0, steps, s, w);
        taken, handled := taken + [jobs[0]], handled + multiset{jobs[0]};
        jobs := jobs[1..];
        assert View() == s;
      }
      if channelClosed {
        steps, s := Then(s0, steps, s, Exit(w));
        workers := workers[w := Exited];
        assert View() == s;
      }
    }
  }

  lemma DrainingIsClosed(s: State)
    requires Inv(s) && |s.clients| >= 1 && s.clients[0] == Draining
    ensures s.channelClosed && (AllExited(s) ==> s.buffer == [])
  {
    assert FlagsFit(s, s.clients[0]);
    assert AllExited(s) ==> s.workers[0] == Exited;
  }

  lemma InvBetweenCalls(s: State)
    requires Inv(s)
    ensures s.accepted == s.taken + s.buffer && (s.channelClosed ==> s.closed)
    ensures |s.clients| == 1 && s.clients[0].Out? && s.closed ==> s.channelClosed
  {
  }
}
