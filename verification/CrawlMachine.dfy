/** The crawl on the worker pool as a machine of interleaved steps: Run submits the start pages,
    workers take tasks from a bounded queue, a submit that finds the queue full runs its task on
    the spot, and every page submits its links one level deeper. */
module CrawlMachine {

  // ----- states

  datatype Task = Task(id: nat, url: string, depth: nat)

  /** How far a running task has come. */
  datatype Phase =
    | Begin
    | Fetching
    | Saving(links: seq<string>)               // read from the page, not yet in the store
    | Loading
    | Submitting(rest: seq<string>)
    | Handing(child: Task, rest: seq<string>)  // counted by the wait group, not yet queued or run
    | Finished                                 // returned, not yet subtracted from the wait group

  datatype Frame = Frame(task: Task, phase: Phase)

  /** How far Run itself has come. */
  datatype Main =
    | Seeding(urls: seq<string>)
    | HandingSeed(seed: Task, urls: seq<string>)
    | Waiting
    | Waited
    | QuitClosed
    | Stopping
    | Returned

  /** `loaded` and `bank` are the recorded depths and the stored links left by an earlier run. */
  datatype Config = Config(workers: nat, capacity: nat, depth: nat, maxLinks: nat,
                           startUrls: seq<string>, loaded: map<string, nat>, bank: map<string, seq<string>>) {
    predicate Valid() {
      workers >= 1 && capacity >= 1
    }
  }

  /** Thread 0 is Run, the others are the workers; each has a stack of nested running tasks.
      `cached` has the links put into the cache for every page read, which may have evicted them since;
      `stored` those in the store. `completed` and `fetched` record what has happened. */
  datatype State = State(
    queue: seq<Task>, wg: int, quit: bool, closed: bool, panicked: bool,
    main: Main, stacks: seq<seq<Frame>>, alive: seq<bool>,
    visited: map<string, nat>, cached: map<string, seq<string>>, stored: map<string, seq<string>>,
    submitted: nat, completed: seq<nat>, fetched: seq<string>)
  {
    predicate Running(t: nat) {
      t < |stacks| && stacks[t] != []
    }

    function Top(t: nat): Frame
      requires Running(t)
    {
      stacks[t][|stacks[t]| - 1]
    }

    function Push(t: nat, f: Frame): (s: State)
      requires t < |stacks|
      ensures s == this.(stacks := s.stacks) && |s.stacks| == |stacks|
    {
      this.(stacks := stacks[t := stacks[t] + [f]])
    }

    function Pop(t: nat): (s: State)
      requires Running(t)
      ensures s == this.(stacks := s.stacks) && |s.stacks| == |stacks|
    {
      this.(stacks := stacks[t := stacks[t][..|stacks[t]| - 1]])
    }

    function To(t: nat, p: Phase): (s: State)
      requires Running(t)
      ensures s == this.(stacks := s.stacks) && |s.stacks| == |stacks|
    {
      Pop(t).Push(t, Top(t).(phase := p))
    }

    predicate MayFind(url: string, links: seq<string>) {
      (url in cached && links == cached[url]) || (url in stored && links == stored[url])
    }

    /** The select of Submit: queue the task if there is room, otherwise run it here. */
    function Hand(c: Config, t: nat, task: Task): (s: State)
      requires t < |stacks|
      ensures s == this.(queue := s.queue, stacks := s.stacks, panicked := s.panicked) && |s.stacks| == |stacks|
    {
      if closed then this.(panicked := true)
      else if |queue| < c.capacity then this.(queue := queue + [task])
      else Push(t, Frame(task, Begin))
    }
  }

  function Init(c: Config): State {
    State([], 0, false, false, false, Seeding(c.startUrls),
          seq(c.workers + 1, _ => []), seq(c.workers + 1, _ => true),
          c.loaded, map[], c.bank, 0, [], [])
  }

  // ----- steps

  datatype Action =
    | Seed | SeedingDone | HandSeed | WaitReturns | CloseQuit | CloseBuf | StopReturns
    | Receive(t: nat) | Exit(t: nat)
    | Leave(t: nat) | Visit(t: nat) | Fail(t: nat)
    | Parse(t: nat, links: seq<string>) | Save(t: nat) | Deliver(t: nat, links: seq<string>) | Missing(t: nat)
    | AddChild(t: nat) | LinksDone(t: nat) | HandChild(t: nat) | Done(t: nat)

  predicate Enabled(c: Config, s: State, a: Action) {
    match a
    case Seed => s.main.Seeding? && s.main.urls != [] && |s.stacks| > 0 && s.stacks[0] == []
    case SeedingDone => s.main.Seeding? && s.main.urls == [] && |s.stacks| > 0 && s.stacks[0] == []
    case HandSeed => s.main.HandingSeed? && |s.stacks| > 0
    case WaitReturns => s.main.Waiting? && s.wg == 0
    case CloseQuit => s.main.Waited?
    case CloseBuf => s.main.QuitClosed?
    case StopReturns => s.main.Stopping? && s.wg == 0
    case Receive(t) => 0 < t < |s.stacks| && t < |s.alive| && s.alive[t] && s.stacks[t] == [] && s.queue != []
    case Exit(t) => 0 < t < |s.stacks| && t < |s.alive| && s.alive[t] && s.stacks[t] == []
                    && (s.quit || (s.closed && s.queue == []))
    // the depth limit, or any outcome before the page is looked up
    case Leave(t) => s.Running(t) && s.Top(t).phase.Begin?
    case Visit(t) => s.Running(t) && s.Top(t).phase.Begin? && s.Top(t).task.depth < c.depth
    case Fail(t) => s.Running(t) && (s.Top(t).phase.Fetching? || s.Top(t).phase.Saving? || s.Top(t).phase.Loading?)
    case Parse(t, links) => s.Running(t) && s.Top(t).phase.Fetching? && |links| <= c.maxLinks
    case Save(t) => s.Running(t) && s.Top(t).phase.Saving?
    // a page looked up again: its links are found in the cache or the store, or in neither
    case Deliver(t, links) => s.Running(t) && s.Top(t).phase.Loading? && s.MayFind(s.Top(t).task.url, links)
                              && |links| <= c.maxLinks
    case Missing(t) => s.Running(t) && s.Top(t).phase.Loading? && s.Top(t).task.url !in s.stored
    case AddChild(t) => s.Running(t) && s.Top(t).phase.Submitting? && s.Top(t).phase.rest != []
    case LinksDone(t) => s.Running(t) && s.Top(t).phase.Submitting? && s.Top(t).phase.rest == []
    case HandChild(t) => s.Running(t) && s.Top(t).phase.Handing?
    case Done(t) => s.Running(t) && s.Top(t).phase.Finished?
  }

  /** Steps that take the task on top of a stack from one phase to the next and touch no other frame. */
  predicate OfTask(a: Action) {
    || a.Leave? || a.Visit? || a.Fail? || a.Parse? || a.Save? || a.Deliver? || a.Missing?
    || a.AddChild? || a.LinksDone?
  }

  /** The phase a step of a running task leads to. */
  function NextPhase(s: State, a: Action, t: nat): Phase
    requires s.Running(t)
  {
    var f := s.Top(t);
    match a
    case Visit(_) =>
      if f.task.url !in s.visited then Fetching
      else if s.visited[f.task.url] <= f.task.depth then Finished
      else Loading
    case Parse(_, links) => Saving(links)
    case Save(_) => if f.phase.Saving? then Submitting(f.phase.links) else Finished
    case Deliver(_, links) => Submitting(links)
    case AddChild(_) =>
      if f.phase.Submitting? && f.phase.rest != [] then
        Handing(Task(s.submitted, f.phase.rest[0], f.task.depth + 1), f.phase.rest[1..])
      else Finished
    case HandChild(_) => if f.phase.Handing? then Submitting(f.phase.rest) else Finished
    case _ => Finished
  }

  /** A step of a task: its next phase, and what is recorded. */
  function Advance(s: State, a: Action): State
    requires OfTask(a) && s.Running(a.t)
  {
    var f, s' := s.Top(a.t), s.To(a.t, NextPhase(s, a, a.t));
    match a
    case Visit(_) =>
      if f.task.url in s.visited then s'
      else s'.(visited := s.visited[f.task.url := f.task.depth], fetched := s.fetched + [f.task.url])
    case Parse(_, links) => s'.(cached := s.cached[f.task.url := links])
    case Save(_) => if f.phase.Saving? then s'.(stored := s.stored[f.task.url := f.phase.links]) else s'
    case AddChild(_) => s'.(wg := s.wg + 1, submitted := s.submitted + 1)
    case _ => s'
  }

  /** A step of Run, or one by which a thread takes up or ends a task. */
  function Proceed(c: Config, s: State, a: Action): State
    requires Enabled(c, s, a) && !OfTask(a)
  {
    match a
    case Seed =>
      s.(wg := s.wg + 1, submitted := s.submitted + 1,
         main := HandingSeed(Task(s.submitted, s.main.urls[0], 0), s.main.urls[1..]))
    case SeedingDone => s.(main := Waiting)
    case HandSeed => s.Hand(c, 0, s.main.seed).(main := Seeding(s.main.urls))
    case WaitReturns => s.(main := Waited)
    case CloseQuit => s.(main := QuitClosed, quit := true)
    case CloseBuf => s.(main := Stopping, closed := true)
    case StopReturns => s.(main := Returned)
    case Receive(t) => s.Push(t, Frame(s.queue[0], Begin)).(queue := s.queue[1..])
    case Exit(t) => s.(alive := s.alive[t := false])
    case HandChild(t) => s.To(t, NextPhase(s, a, t)).Hand(c, t, s.Top(t).phase.child)
    case Done(t) =>
      s.Pop(t).(wg := s.wg - 1, panicked := s.panicked || s.wg <= 0, completed := s.completed + [s.Top(t).task.id])
  }

  function Apply(c: Config, s: State, a: Action): State
    requires Enabled(c, s, a)
  {
    if OfTask(a) then Advance(s, a) else Proceed(c, s, a)
  }

  /** The state after a sequence of steps from the start, if each of them was possible. */
  datatype Outcome = Stuck | At(state: State)

  function After(c: Config, steps: seq<Action>): Outcome {
    if steps == [] then At(Init(c))
    else
      match After(c, steps[..|steps| - 1])
      case Stuck => Stuck
      case At(s) => if Enabled(c, s, steps[|steps| - 1]) then At(Apply(c, s, steps[|steps| - 1])) else Stuck
  }

  // ----- weighing a state: every task, frame and phase of Run has a weight

  datatype Weights = Weights(task: Task -> nat, frame: Frame -> nat, main: Main -> nat)

  function Sum<T>(w: T -> nat, xs: seq<T>): nat {
    if xs == [] then 0 else Sum(w, xs[..|xs| - 1]) + w(xs[|xs| - 1])
  }

  function StacksSum(w: Frame -> nat, stacks: seq<seq<Frame>>): nat {
    if stacks == [] then 0 else StacksSum(w, stacks[..|stacks| - 1]) + Sum(w, stacks[|stacks| - 1])
  }

  function Mass(w: Weights, s: State): nat {
    Sum(w.task, s.queue) + StacksSum(w.frame, s.stacks) + w.main(s.main)
  }

  lemma SumAppend<T>(w: T -> nat, xs: seq<T>, x: T)
    ensures Sum(w, xs + [x]) == Sum(w, xs) + w(x)
  {
    assert (xs + [x])[..|xs|] == xs;
  }

  lemma {:induction false} SumFirst<T>(w: T -> nat, xs: seq<T>)
    requires xs != []
    ensures Sum(w, xs) == w(xs[0]) + Sum(w, xs[1..])
  {
    if |xs| > 1 {
      SumFirst(w, xs[..|xs| - 1]);
      assert xs[..|xs| - 1][1..] == xs[1..][..|xs| - 2];
    }
  }

  lemma {:induction false} StacksUpdate(w: Frame -> nat, stacks: seq<seq<Frame>>, t: nat, stack: seq<Frame>)
    requires t < |stacks|
    ensures StacksSum(w, stacks[t := stack]) + Sum(w, stacks[t]) == StacksSum(w, stacks) + Sum(w, stack)
  {
    var n := |stacks| - 1;
    if t == n {
      assert stacks[t := stack][..n] == stacks[..n];
    } else {
      StacksUpdate(w, stacks[..n], t, stack);
      assert stacks[t := stack][..n] == stacks[..n][t := stack];
    }
  }

  lemma PushMass(w: Weights, s: State, t: nat, f: Frame)
    requires t < |s.stacks|
    ensures Mass(w, s.Push(t, f)) == Mass(w, s) + w.frame(f)
  {
    StacksUpdate(w.frame, s.stacks, t, s.stacks[t] + [f]);
    SumAppend(w.frame, s.stacks[t], f);
  }

  lemma PopMass(w: Weights, s: State, t: nat)
    requires s.Running(t)
    ensures Mass(w, s.Pop(t)) + w.frame(s.Top(t)) == Mass(w, s)
  {
    StacksUpdate(w.frame, s.stacks, t, s.stacks[t][..|s.stacks[t]| - 1]);
  }

  lemma ToMass(w: Weights, s: State, t: nat, p: Phase)
    requires s.Running(t)
    ensures Mass(w, s.To(t, p)) + w.frame(s.Top(t)) == Mass(w, s) + w.frame(s.Top(t).(phase := p))
  {
    PopMass(w, s, t);
    PushMass(w, s.Pop(t), t, s.Top(t).(phase := p));
  }

  lemma HandMass(c: Config, w: Weights, s: State, t: nat, task: Task)
    requires t < |s.stacks| && !s.closed
    ensures Mass(w, s.Hand(c, t, task)) ==
            Mass(w, s) + if |s.queue| < c.capacity then w.task(task) else w.frame(Frame(task, Begin))
  {
    if |s.queue| < c.capacity {
      SumAppend(w.task, s.queue, task);
    } else {
      PushMass(w, s, t, Frame(task, Begin));
    }
  }

  /** The weight of a task just handed over: in the queue if there is room, otherwise as a frame. */
  function Handed(c: Config, w: Weights, s: State, task: Task): nat {
    if |s.queue| < c.capacity then w.task(task) else w.frame(Frame(task, Begin))
  }

  function NextMain(s: State, a: Action): Main
    requires a.Seed? ==> s.main.Seeding? && s.main.urls != []
    requires a.HandSeed? ==> s.main.HandingSeed?
  {
    match a
    case Seed => HandingSeed(Task(s.submitted, s.main.urls[0], 0), s.main.urls[1..])
    case SeedingDone => Waiting
    case HandSeed => Seeding(s.main.urls)
    case WaitReturns => Waited
    case CloseQuit => QuitClosed
    case CloseBuf => Stopping
    case StopReturns => Returned
    case _ => s.main
  }

  /** By how much a step changes the mass of the state, seen from what the step touches. */
  function Change(c: Config, w: Weights, s: State, a: Action): int
    requires Enabled(c, s, a)
  {
    if OfTask(a) then w.frame(s.Top(a.t).(phase := NextPhase(s, a, a.t))) - w.frame(s.Top(a.t))
    else
      match a
      case Receive(t) => w.frame(Frame(s.queue[0], Begin)) - w.task(s.queue[0])
      case Exit(t) => 0
      case Done(t) => 0 - w.frame(s.Top(t))
      case HandChild(t) => w.frame(s.Top(t).(phase := NextPhase(s, a, t))) - w.frame(s.Top(t))
                           + Handed(c, w, s, s.Top(t).phase.child)
      case HandSeed => w.main(NextMain(s, a)) - w.main(s.main) + Handed(c, w, s, s.main.seed)
      case _ => w.main(NextMain(s, a)) - w.main(s.main)
  }

  predicate SameThreads(s: State, s': State) {
    && s'.queue == s.queue && s'.main == s.main && s'.alive == s.alive && s'.completed == s.completed
  }

  predicate SameChannels(s: State, s': State, n: nat) {
    && s'.quit == s.quit && s'.closed == s.closed && s'.panicked == s.panicked
    && s'.wg == s.wg + n && s'.submitted == s.submitted + n
  }

  /** Nothing but stacks and records has changed, and `n` tasks have been submitted. */
  predicate Untouched(s: State, s': State, n: nat) {
    SameThreads(s, s') && SameChannels(s, s', n)
  }

  /** What a step of a task changes: its stack, and what it records. */
  lemma TaskStep(c: Config, s: State, a: Action)
    requires Enabled(c, s, a) && OfTask(a)
    ensures s.Running(a.t)
    ensures var s' := Apply(c, s, a);
            && s'.stacks == s.To(a.t, NextPhase(s, a, a.t)).stacks && |s'.stacks| == |s.stacks|
            && Untouched(s, s', if a.AddChild? then 1 else 0)
  {
    hide State.To, NextPhase;
  }

  lemma SameMass(w: Weights, s: State, s': State)
    requires s'.queue == s.queue && s'.main == s.main && s'.stacks == s.stacks
    ensures Mass(w, s') == Mass(w, s)
  {
  }

  lemma StepMass(c: Config, w: Weights, s: State, a: Action)
    requires Enabled(c, s, a) && (s.closed ==> !a.HandSeed? && !a.HandChild?)
    ensures Mass(w, Apply(c, s, a)) == Mass(w, s) + Change(c, w, s, a)
  {
    if OfTask(a) {
      TaskStepMass(c, w, s, a);
    } else {
      OtherStepMass(c, w, s, a);
    }
  }

  lemma TaskStepMass(c: Config, w: Weights, s: State, a: Action)
    requires Enabled(c, s, a) && OfTask(a)
    ensures Mass(w, Apply(c, s, a)) == Mass(w, s) + Change(c, w, s, a)
  {
    hide Apply, Mass, State.To;
    TaskStep(c, s, a);
    ToMass(w, s, a.t, NextPhase(s, a, a.t));
    SameMass(w, s.To(a.t, NextPhase(s, a, a.t)), Apply(c, s, a));
  }

  lemma OtherStepMass(c: Config, w: Weights, s: State, a: Action)
    requires Enabled(c, s, a) && !OfTask(a) && (s.closed ==> !a.HandSeed? && !a.HandChild?)
    ensures Mass(w, Apply(c, s, a)) == Mass(w, s) + Change(c, w, s, a)
  {
    if a.Receive? || a.Done? {
      WorkerStepMass(c, w, s, a);
    } else if a.HandSeed? || a.HandChild? {
      HandStepMass(c, w, s, a);
    } else {
      MainStepMass(c, w, s, a);
    }
  }

  lemma WorkerStepMass(c: Config, w: Weights, s: State, a: Action)
    requires Enabled(c, s, a) && (a.Receive? || a.Done?)
    ensures Mass(w, Apply(c, s, a)) == Mass(w, s) + Change(c, w, s, a)
  {
    hide State.Push, State.Pop, StacksSum;
    if a.Receive? {
      PushMass(w, s, a.t, Frame(s.queue[0], Begin));
      SumFirst(w.task, s.queue);
    } else {
      PopMass(w, s, a.t);
    }
  }

  lemma HandStepMass(c: Config, w: Weights, s: State, a: Action)
    requires Enabled(c, s, a) && (a.HandSeed? || a.HandChild?) && !s.closed
    ensures Mass(w, Apply(c, s, a)) == Mass(w, s) + Change(c, w, s, a)
  {
    hide State.To, State.Hand, StacksSum, Sum;
    if a.HandSeed? {
      HandMass(c, w, s, 0, s.main.seed);
    } else {
      ToMass(w, s, a.t, NextPhase(s, a, a.t));
      HandMass(c, w, s.To(a.t, NextPhase(s, a, a.t)), a.t, s.Top(a.t).phase.child);
    }
  }

  lemma MainStepMass(c: Config, w: Weights, s: State, a: Action)
    requires Enabled(c, s, a) && !OfTask(a) && !a.Receive? && !a.Done? && !a.HandSeed? && !a.HandChild?
    ensures Mass(w, Apply(c, s, a)) == Mass(w, s) + Change(c, w, s, a)
  {
  }

  // ----- what every reachable state satisfies

  /** Queued tasks, running tasks and tasks being handed over. */
  function CountWeights(): Weights {
    Weights((_: Task) => 1, (f: Frame) => if f.phase.Handing? then 2 else 1,
            (m: Main) => if m.HandingSeed? then 1 else 0)
  }

  function Is(id: nat, task: Task): nat {
    if task.id == id then 1 else 0
  }

  /** The places where one task is: queued, running or being handed over. */
  function PlaceWeights(id: nat): Weights {
    Weights((t: Task) => Is(id, t),
            (f: Frame) => Is(id, f.task) + if f.phase.Handing? then Is(id, f.phase.child) else 0,
            (m: Main) => if m.HandingSeed? then Is(id, m.seed) else 0)
  }

  function Occurrences(ids: seq<nat>, id: nat): nat {
    if ids == [] then 0 else Occurrences(ids[..|ids| - 1], id) + if ids[|ids| - 1] == id then 1 else 0
  }

  /** The wait group counts queued tasks, unfinished tasks and pending submits, and nothing has gone
      below zero or onto a closed channel. */
  ghost predicate Counted(s: State) {
    !s.panicked && s.wg == Mass(CountWeights(), s)
  }

  /** Every submitted task is in one place: queued, running, being handed over, or completed once. */
  ghost predicate Conserved(s: State) {
    forall id: nat :: Mass(PlaceWeights(id), s) + Occurrences(s.completed, id) == if id < s.submitted then 1 else 0
  }

  /** The channels are closed only after Wait has returned, and from then on no task is left. */
  ghost predicate Ordered(c: Config, s: State) {
    && |s.stacks| == |s.alive| == c.workers + 1
    && (s.quit <==> s.main.QuitClosed? || s.main.Stopping? || s.main.Returned?)
    && (s.closed <==> s.main.Stopping? || s.main.Returned?)
    && (s.main.Waited? || s.main.QuitClosed? || s.main.Stopping? || s.main.Returned? ==> s.wg == 0)
    && (!s.quit ==> forall t :: 0 <= t < |s.alive| ==> s.alive[t])
  }

  lemma {:induction false} StackWeighs(w: Frame -> nat, stacks: seq<seq<Frame>>, t: nat)
    requires t < |stacks| && stacks[t] != []
    ensures StacksSum(w, stacks) >= w(stacks[t][|stacks[t]| - 1])
  {
    if t < |stacks| - 1 {
      StackWeighs(w, stacks[..|stacks| - 1], t);
    }
  }

  /** With the counter at zero nothing is queued and nothing runs. */
  lemma Quiet(s: State)
    requires Mass(CountWeights(), s) == 0
    ensures s.queue == [] && (forall t: nat :: !s.Running(t)) && !s.main.HandingSeed?
  {
    var w := CountWeights();
    forall t: nat
      ensures !s.Running(t)
    {
      if s.Running(t) {
        StackWeighs(w.frame, s.stacks, t);
      }
    }
  }

  lemma RunningCounts(s: State, t: nat)
    requires s.Running(t)
    ensures Mass(CountWeights(), s) >= 1
  {
    StackWeighs(CountWeights().frame, s.stacks, t);
  }

  lemma CountedKept(c: Config, s: State, a: Action)
    requires Enabled(c, s, a) && Counted(s) && Ordered(c, s)
    ensures Counted(Apply(c, s, a))
    ensures s.closed ==> !a.HandSeed? && !a.HandChild?
  {
    hide Apply, Mass, Change, CountWeights;
    if s.wg == 0 {
      Quiet(s);
    }
    StepMass(c, CountWeights(), s, a);
    CountChange(c, s, a);
    CounterStep(c, s, a);
  }

  lemma CountChange(c: Config, s: State, a: Action)
    requires Enabled(c, s, a)
    ensures Change(c, CountWeights(), s, a) == if a.Seed? || a.AddChild? then 1 else if a.Done? then -1 else 0
    ensures a.Done? ==> Mass(CountWeights(), s) >= 1
  {
    hide Mass;
    if a.Done? {
      RunningCounts(s, a.t);
    }
  }

  lemma CounterStep(c: Config, s: State, a: Action)
    requires Enabled(c, s, a) && (s.closed ==> !a.HandSeed? && !a.HandChild?) && (a.Done? ==> s.wg >= 1)
    ensures var s' := Apply(c, s, a);
            && s'.wg == s.wg + (if a.Seed? || a.AddChild? then 1 else if a.Done? then -1 else 0)
            && s'.panicked == s.panicked
  {
    if OfTask(a) {
      hide Apply, State.To;
      TaskStep(c, s, a);
    } else {
      OtherCounterStep(c, s, a);
    }
  }

  lemma OtherCounterStep(c: Config, s: State, a: Action)
    requires Enabled(c, s, a) && !OfTask(a)
    requires (s.closed ==> !a.HandSeed? && !a.HandChild?) && (a.Done? ==> s.wg >= 1)
    ensures var s' := Apply(c, s, a);
            && s'.wg == s.wg + (if a.Seed? then 1 else if a.Done? then -1 else 0)
            && s'.panicked == s.panicked
  {
    hide State.To, State.Push, State.Pop, NextPhase;
    match a
    case Seed =>
    case HandSeed =>
    case Receive(_) =>
    case HandChild(_) =>
    case Done(_) =>
    case _ =>
  }

  lemma OrderedKept(c: Config, s: State, a: Action)
    requires Enabled(c, s, a) && Counted(s) && Ordered(c, s)
    ensures Ordered(c, Apply(c, s, a))
  {
    if OfTask(a) {
      hide Apply, Mass, State.To;
      RunningCounts(s, a.t);
      TaskStep(c, s, a);
    } else {
      OtherOrderedKept(c, s, a);
    }
  }

  lemma OtherOrderedKept(c: Config, s: State, a: Action)
    requires Enabled(c, s, a) && !OfTask(a) && Counted(s) && Ordered(c, s)
    ensures Ordered(c, Apply(c, s, a))
  {
    hide State.To, State.Push, State.Pop, State.Hand, Mass;
    if s.wg == 0 {
      Quiet(s);
    }
  }

  /** A submit puts the new task in one place, completing a task takes it out, nothing else moves tasks. */
  lemma PlaceChange(c: Config, s: State, a: Action, id: nat)
    requires Enabled(c, s, a)
    ensures Change(c, PlaceWeights(id), s, a) ==
            if a.Seed? || a.AddChild? then (if id == s.submitted then 1 else 0)
            else if a.Done? then 0 - Is(id, s.Top(a.t).task)
            else 0
  {
  }

  /** Only a submit counts a task up, only a return completes one. */
  lemma TalliesStep(c: Config, s: State, a: Action)
    requires Enabled(c, s, a)
    ensures var s' := Apply(c, s, a);
            && s'.submitted == s.submitted + (if a.Seed? || a.AddChild? then 1 else 0)
            && s'.completed == if a.Done? then s.completed + [s.Top(a.t).task.id] else s.completed
  {
    if OfTask(a) {
      hide Apply, Enabled, State.To;
      TaskStep(c, s, a);
    } else {
      OtherTallies(c, s, a);
    }
  }

  lemma OtherTallies(c: Config, s: State, a: Action)
    requires Enabled(c, s, a) && !OfTask(a)
    ensures var s' := Apply(c, s, a);
            && s'.submitted == s.submitted + (if a.Seed? then 1 else 0)
            && s'.completed == if a.Done? then s.completed + [s.Top(a.t).task.id] else s.completed
  {
    hide State.To, State.Push, State.Pop, State.Hand, NextPhase;
    match a
    case Seed =>
    case HandSeed =>
    case Receive(_) =>
    case HandChild(_) =>
    case Done(_) =>
    case _ =>
  }

  lemma ConservedKept(c: Config, s: State, a: Action)
    requires Enabled(c, s, a) && Counted(s) && Ordered(c, s) && Conserved(s)
    ensures Conserved(Apply(c, s, a))
  {
    hide Change, Mass, PlaceWeights, Apply, Counted, Ordered;
    var s' := Apply(c, s, a);
    CountedKept(c, s, a);
    TalliesStep(c, s, a);
    forall id: nat
      ensures Mass(PlaceWeights(id), s') + Occurrences(s'.completed, id) == if id < s'.submitted then 1 else 0
    {
      StepMass(c, PlaceWeights(id), s, a);
      PlaceChange(c, s, a, id);
      assert Mass(PlaceWeights(id), s) + Occurrences(s.completed, id) == if id < s.submitted then 1 else 0;
      if a.Done? {
        assert s'.completed[..|s.completed|] == s.completed;
      }
    }
  }

  // ----- depths and numbers of links

  ghost predicate FrameOk(c: Config, f: Frame) {
    && f.task.depth <= c.depth
    && match f.phase
       case Begin => true
       case Finished => true
       case Fetching => f.task.depth < c.depth
       case Saving(links) => f.task.depth < c.depth && |links| <= c.maxLinks
       case Loading => f.task.depth < c.depth
       case Submitting(rest) => f.task.depth < c.depth && |rest| <= c.maxLinks
       case Handing(child, rest) => child.depth == f.task.depth + 1 <= c.depth && |rest| <= c.maxLinks
  }

  /** No task is deeper than the limit and no page hands on more than the allowed links. */
  ghost predicate Bounded(c: Config, s: State) {
    && (forall t :: t in s.queue ==> t.depth <= c.depth)
    && AllOk(c, s.stacks)
    && (s.main.HandingSeed? ==> s.main.seed.depth == 0)
  }

  ghost predicate AllOk(c: Config, stacks: seq<seq<Frame>>) {
    forall i, j :: 0 <= i < |stacks| && 0 <= j < |stacks[i]| ==> FrameOk(c, stacks[i][j])
  }

  lemma TopOk(c: Config, s: State, t: nat)
    requires Bounded(c, s) && s.Running(t)
    ensures FrameOk(c, s.Top(t))
  {
  }

  lemma StackBounded(c: Config, stacks: seq<seq<Frame>>, t: nat, stack: seq<Frame>)
    requires t < |stacks| && AllOk(c, stacks)
    requires forall j :: 0 <= j < |stack| ==> FrameOk(c, stack[j])
    ensures AllOk(c, stacks[t := stack])
  {
  }

  lemma PushBounded(c: Config, s: State, t: nat, f: Frame)
    requires Bounded(c, s) && t < |s.stacks| && FrameOk(c, f)
    ensures Bounded(c, s.Push(t, f))
  {
    StackBounded(c, s.stacks, t, s.stacks[t] + [f]);
  }

  lemma PopBounded(c: Config, s: State, t: nat)
    requires Bounded(c, s) && s.Running(t)
    ensures Bounded(c, s.Pop(t))
  {
    StackBounded(c, s.stacks, t, s.stacks[t][..|s.stacks[t]| - 1]);
  }

  lemma ToBounded(c: Config, s: State, t: nat, p: Phase)
    requires Bounded(c, s) && s.Running(t) && FrameOk(c, s.Top(t).(phase := p))
    ensures Bounded(c, s.To(t, p)) && |s.To(t, p).stacks| == |s.stacks|
  {
    PopBounded(c, s, t);
    PushBounded(c, s.Pop(t), t, s.Top(t).(phase := p));
  }

  lemma HandBounded(c: Config, s: State, t: nat, task: Task)
    requires Bounded(c, s) && t < |s.stacks| && task.depth <= c.depth
    ensures Bounded(c, s.Hand(c, t, task))
  {
    if !s.closed && |s.queue| >= c.capacity {
      PushBounded(c, s, t, Frame(task, Begin));
    }
  }

  lemma NextOk(c: Config, s: State, a: Action)
    requires Enabled(c, s, a) && OfTask(a) && FrameOk(c, s.Top(a.t))
    ensures FrameOk(c, s.Top(a.t).(phase := NextPhase(s, a, a.t)))
  {
  }

  lemma SameBounded(c: Config, s: State, s': State)
    requires Bounded(c, s) && s'.queue == s.queue && s'.main == s.main && s'.stacks == s.stacks
    ensures Bounded(c, s')
  {
  }

  lemma BoundedKept(c: Config, s: State, a: Action)
    requires Enabled(c, s, a) && Bounded(c, s)
    ensures Bounded(c, Apply(c, s, a))
  {
    if OfTask(a) {
      TaskBoundedKept(c, s, a);
    } else {
      OtherBoundedKept(c, s, a);
    }
  }

  lemma TaskBoundedKept(c: Config, s: State, a: Action)
    requires Enabled(c, s, a) && Bounded(c, s) && OfTask(a)
    ensures Bounded(c, Apply(c, s, a))
  {
    hide Apply, Bounded, FrameOk, State.To;
    TopOk(c, s, a.t);
    NextOk(c, s, a);
    ToBounded(c, s, a.t, NextPhase(s, a, a.t));
    TaskStep(c, s, a);
    SameBounded(c, s.To(a.t, NextPhase(s, a, a.t)), Apply(c, s, a));
  }

  lemma OtherBoundedKept(c: Config, s: State, a: Action)
    requires Enabled(c, s, a) && Bounded(c, s) && !OfTask(a)
    ensures Bounded(c, Apply(c, s, a))
  {
    hide AllOk, State.To, State.Push, State.Pop, State.Hand;
    match a
    case Receive(t) => PushBounded(c, s, t, Frame(s.queue[0], Begin));
    case HandChild(t) =>
      TopOk(c, s, t);
      ToBounded(c, s, t, NextPhase(s, a, t));
      HandBounded(c, s.To(t, NextPhase(s, a, t)), t, s.Top(t).phase.child);
    case Done(t) => PopBounded(c, s, t);
    case HandSeed => HandBounded(c, s, 0, s.main.seed);
    case _ =>
  }

  // ----- how many tasks can ever be submitted

  function Times(n: nat, x: nat): nat {
    if n == 0 then 0 else Times(n - 1, x) + x
  }

  lemma {:induction false} TimesGrows(n: nat, m: nat, x: nat)
    requires n <= m
    ensures Times(n, x) <= Times(m, x)
  {
    if n < m {
      TimesGrows(n, m - 1, x);
    }
  }

  /** The tasks of a page and everything below it, `left` levels above the depth limit. */
  function Tree(links: nat, left: nat): (n: nat)
    ensures n >= 1
  {
    if left == 0 then 1 else 1 + Times(links, Tree(links, left - 1))
  }

  function Left(c: Config, depth: nat): nat {
    if depth <= c.depth then c.depth - depth else 0
  }

  /** The tasks a task at this depth may still submit. */
  function Below(c: Config, depth: nat): nat {
    Tree(c.maxLinks, Left(c, depth)) - 1
  }

  function BelowEach(c: Config, depth: nat, n: nat): nat {
    Times(n, Tree(c.maxLinks, Left(c, depth)))
  }

  function BudgetWeights(c: Config): Weights {
    Weights((t: Task) => Below(c, t.depth),
            (f: Frame) =>
              match f.phase
              case Begin => Below(c, f.task.depth)
              case Fetching => BelowEach(c, f.task.depth + 1, c.maxLinks)
              case Saving(links) => BelowEach(c, f.task.depth + 1, |links|)
              case Loading => BelowEach(c, f.task.depth + 1, c.maxLinks)
              case Submitting(rest) => BelowEach(c, f.task.depth + 1, |rest|)
              case Handing(child, rest) => Below(c, child.depth) + BelowEach(c, f.task.depth + 1, |rest|)
              case Finished => 0,
            (m: Main) =>
              match m
              case Seeding(urls) => BelowEach(c, 0, |urls|)
              case HandingSeed(seed, urls) => Below(c, seed.depth) + BelowEach(c, 0, |urls|)
              case _ => 0)
  }

  /** Submitted so far and still to come together never exceed the size of the whole tree. */
  ghost predicate WithinBudget(c: Config, s: State) {
    s.submitted + Mass(BudgetWeights(c), s) <= Times(|c.startUrls|, Tree(c.maxLinks, c.depth))
  }

  lemma BudgetUnfolds(c: Config, depth: nat, n: nat)
    ensures depth < c.depth ==> Below(c, depth) == BelowEach(c, depth + 1, c.maxLinks)
    ensures n > 0 ==> BelowEach(c, depth, n) == BelowEach(c, depth, n - 1) + 1 + Below(c, depth)
    ensures n <= c.maxLinks ==> BelowEach(c, depth, n) <= BelowEach(c, depth, c.maxLinks)
  {
    if n <= c.maxLinks {
      TimesGrows(n, c.maxLinks, Tree(c.maxLinks, Left(c, depth)));
    }
  }

  lemma BudgetChangeOfPage(c: Config, s: State, a: Action)
    requires Enabled(c, s, a) && Bounded(c, s)
    requires a.Leave? || a.Visit? || a.Fail? || a.Parse? || a.Save? || a.Deliver? || a.Missing?
    ensures Change(c, BudgetWeights(c), s, a) <= 0
  {
    hide Below, BelowEach, Bounded, State.To, State.Push, State.Pop, State.Hand;
    TopOk(c, s, a.t);
    match a
    case Visit(t) => BudgetUnfolds(c, s.Top(t).task.depth, 0);
    case Parse(t, links) => BudgetUnfolds(c, s.Top(t).task.depth + 1, |links|);
    case Deliver(t, links) => BudgetUnfolds(c, s.Top(t).task.depth + 1, |links|);
    case _ =>
  }

  lemma BudgetChangeOfLinks(c: Config, s: State, a: Action)
    requires Enabled(c, s, a) && Bounded(c, s) && (a.AddChild? || a.LinksDone? || a.HandChild? || a.Done?)
    ensures Change(c, BudgetWeights(c), s, a) + (if a.AddChild? then 1 else 0) <= 0
  {
    hide Below, BelowEach, Bounded, State.To, State.Push, State.Pop, State.Hand;
    TopOk(c, s, a.t);
    if a.AddChild? {
      BudgetUnfolds(c, s.Top(a.t).task.depth + 1, |s.Top(a.t).phase.rest|);
    }
  }

  lemma BudgetChange(c: Config, s: State, a: Action)
    requires Enabled(c, s, a) && Bounded(c, s)
    ensures Change(c, BudgetWeights(c), s, a) + (if a.Seed? || a.AddChild? then 1 else 0) <= 0
  {
    hide Below, BelowEach, Bounded, State.To, State.Push, State.Pop, State.Hand;
    if a.Leave? || a.Visit? || a.Fail? || a.Parse? || a.Save? || a.Deliver? || a.Missing? {
      BudgetChangeOfPage(c, s, a);
    } else if a.AddChild? || a.LinksDone? || a.HandChild? || a.Done? {
      BudgetChangeOfLinks(c, s, a);
    } else if a.Seed? {
      BudgetUnfolds(c, 0, |s.main.urls|);
    }
  }

  lemma WithinBudgetKept(c: Config, s: State, a: Action)
    requires Enabled(c, s, a) && Counted(s) && Ordered(c, s) && Bounded(c, s) && WithinBudget(c, s)
    ensures WithinBudget(c, Apply(c, s, a))
  {
    hide Apply, Change, Mass, BudgetWeights, Bounded, Counted, Ordered;
    CountedKept(c, s, a);
    StepMass(c, BudgetWeights(c), s, a);
    BudgetChange(c, s, a);
    TalliesStep(c, s, a);
  }

  // ----- every run ends

  /** Steps left for a task `left` levels above the limit, from its first step on. */
  function Work(links: nat, left: nat): (n: nat)
    ensures n >= 2
  {
    if left == 0 then 2 else 5 + Times(links, 3 + Work(links, left - 1))
  }

  function WorkAt(c: Config, depth: nat): (n: nat)
    ensures n >= 2
  {
    Work(c.maxLinks, Left(c, depth))
  }

  /** Submitting, handing over and working off `n` tasks of this depth. */
  function WorkEach(c: Config, depth: nat, n: nat): nat {
    Times(n, 3 + WorkAt(c, depth))
  }

  function StepWeights(c: Config): Weights {
    Weights((t: Task) => 1 + WorkAt(c, t.depth),
            (f: Frame) =>
              match f.phase
              case Begin => WorkAt(c, f.task.depth)
              case Fetching => 4 + WorkEach(c, f.task.depth + 1, c.maxLinks)
              case Saving(links) => 3 + WorkEach(c, f.task.depth + 1, |links|)
              case Loading => 3 + WorkEach(c, f.task.depth + 1, c.maxLinks)
              case Submitting(rest) => 2 + WorkEach(c, f.task.depth + 1, |rest|)
              case Handing(child, rest) => 4 + WorkAt(c, child.depth) + WorkEach(c, f.task.depth + 1, |rest|)
              case Finished => 1,
            (m: Main) =>
              match m
              case Seeding(urls) => 5 + WorkEach(c, 0, |urls|)
              case HandingSeed(seed, urls) => 7 + WorkAt(c, seed.depth) + WorkEach(c, 0, |urls|)
              case Waiting => 4
              case Waited => 3
              case QuitClosed => 2
              case Stopping => 1
              case Returned => 0)
  }

  function Living(alive: seq<bool>): nat {
    if alive == [] then 0 else Living(alive[..|alive| - 1]) + if alive[|alive| - 1] then 1 else 0
  }

  lemma {:induction false} OneExits(alive: seq<bool>, t: nat)
    requires t < |alive| && alive[t]
    ensures Living(alive[t := false]) == Living(alive) - 1
  {
    var n := |alive| - 1;
    if t == n {
      assert alive[t := false][..n] == alive[..n];
    } else {
      OneExits(alive[..n], t);
      assert alive[t := false][..n] == alive[..n][t := false];
    }
  }

  /** A bound on the number of steps still to come. */
  function Measure(c: Config, s: State): nat {
    Mass(StepWeights(c), s) + Living(s.alive)
  }

  lemma WorkUnfolds(c: Config, depth: nat, n: nat)
    ensures depth < c.depth ==> WorkAt(c, depth) == 5 + WorkEach(c, depth + 1, c.maxLinks)
    ensures n > 0 ==> WorkEach(c, depth, n) == WorkEach(c, depth, n - 1) + 3 + WorkAt(c, depth)
    ensures n <= c.maxLinks ==> WorkEach(c, depth, n) <= WorkEach(c, depth, c.maxLinks)
  {
    if n <= c.maxLinks {
      TimesGrows(n, c.maxLinks, 3 + WorkAt(c, depth));
    }
  }

  lemma WorkChangeOfPage(c: Config, s: State, a: Action)
    requires Enabled(c, s, a) && Bounded(c, s)
    requires a.Leave? || a.Visit? || a.Fail? || a.Parse? || a.Save? || a.Deliver? || a.Missing?
    ensures Change(c, StepWeights(c), s, a) <= -1
  {
    hide WorkAt, WorkEach, Bounded, State.To, State.Push, State.Pop, State.Hand;
    TopOk(c, s, a.t);
    match a
    case Visit(t) => WorkUnfolds(c, s.Top(t).task.depth, 0);
    case Parse(t, links) => WorkUnfolds(c, s.Top(t).task.depth + 1, |links|);
    case Deliver(t, links) => WorkUnfolds(c, s.Top(t).task.depth + 1, |links|);
    case _ =>
  }

  lemma WorkChangeOfLinks(c: Config, s: State, a: Action)
    requires Enabled(c, s, a) && Bounded(c, s) && (a.AddChild? || a.LinksDone? || a.HandChild? || a.Done?)
    ensures Change(c, StepWeights(c), s, a) <= -1
  {
    hide WorkAt, WorkEach, Bounded, State.To, State.Push, State.Pop, State.Hand;
    TopOk(c, s, a.t);
    if a.AddChild? {
      WorkUnfolds(c, s.Top(a.t).task.depth + 1, |s.Top(a.t).phase.rest|);
    }
  }

  lemma WorkChange(c: Config, s: State, a: Action)
    requires Enabled(c, s, a) && Bounded(c, s)
    ensures Change(c, StepWeights(c), s, a) <= if a.Exit? then 0 else -1
  {
    hide WorkAt, WorkEach, Bounded, State.To, State.Push, State.Pop, State.Hand;
    if a.Leave? || a.Visit? || a.Fail? || a.Parse? || a.Save? || a.Deliver? || a.Missing? {
      WorkChangeOfPage(c, s, a);
    } else if a.AddChild? || a.LinksDone? || a.HandChild? || a.Done? {
      WorkChangeOfLinks(c, s, a);
    } else if a.Seed? {
      WorkUnfolds(c, 0, |s.main.urls|);
    }
  }

  lemma AliveStep(c: Config, s: State, a: Action)
    requires Enabled(c, s, a)
    ensures Apply(c, s, a).alive == if a.Exit? then s.alive[a.t := false] else s.alive
  {
    if OfTask(a) {
      hide Apply, State.To;
      TaskStep(c, s, a);
    } else {
      hide State.To, State.Push, State.Pop, State.Hand;
    }
  }

  /** Every step uses up some of the measure. */
  lemma MeasureDrops(c: Config, s: State, a: Action)
    requires Enabled(c, s, a) && Counted(s) && Ordered(c, s) && Bounded(c, s)
    ensures Measure(c, Apply(c, s, a)) < Measure(c, s)
  {
    hide Apply, Change, Mass, StepWeights, Bounded, Counted, Ordered;
    CountedKept(c, s, a);
    StepMass(c, StepWeights(c), s, a);
    WorkChange(c, s, a);
    AliveStep(c, s, a);
    if a.Exit? {
      OneExits(s.alive, a.t);
    }
  }

  // ----- single fetch

  ghost predicate Distinct(urls: seq<string>) {
    forall i, j :: 0 <= i < j < |urls| ==> urls[i] != urls[j]
  }

  /** The visited map only grows, and a page is fetched only when it enters the map. */
  ghost predicate FetchedOnce(c: Config, s: State) {
    && Distinct(s.fetched)
    && (forall u :: u in s.fetched ==> u in s.visited && u !in c.loaded)
    && (forall u :: u in c.loaded ==> u in s.visited && s.visited[u] == c.loaded[u])
    && (forall u :: u in s.visited ==> u in c.loaded || u in s.fetched)
  }

  lemma OnlyVisitFetches(c: Config, s: State, a: Action)
    requires Enabled(c, s, a)
    ensures var s' := Apply(c, s, a);
            if a.Visit? && s.Top(a.t).task.url !in s.visited then
              var task := s.Top(a.t).task;
              s'.visited == s.visited[task.url := task.depth] && s'.fetched == s.fetched + [task.url]
            else s'.visited == s.visited && s'.fetched == s.fetched
  {
    hide Proceed, State.To, NextPhase;
    if !OfTask(a) {
      NothingRecorded(c, s, a);
    }
  }

  ghost predicate SameRecords(s: State, s': State) {
    s'.visited == s.visited && s'.fetched == s.fetched && s'.cached == s.cached && s'.stored == s.stored
  }

  lemma NothingRecorded(c: Config, s: State, a: Action)
    requires Enabled(c, s, a) && !OfTask(a)
    ensures SameRecords(s, Apply(c, s, a))
  {
    hide State.To, State.Push, State.Pop, State.Hand, NextPhase;
    if a.Receive? {
      ReceiveRecordsNothing(c, s, a);
    }
  }

  lemma ReceiveRecordsNothing(c: Config, s: State, a: Action)
    requires Enabled(c, s, a) && a.Receive?
    ensures SameRecords(s, Apply(c, s, a))
  {
    var pushed := s.Push(a.t, Frame(s.queue[0], Begin));
    assert SameRecords(s, pushed);
    assert Apply(c, s, a) == pushed.(queue := s.queue[1..]);
  }

  lemma OnlyParseReads(c: Config, s: State, a: Action)
    requires Enabled(c, s, a)
    ensures var s' := Apply(c, s, a);
            && s'.cached == (if a.Parse? then s.cached[s.Top(a.t).task.url := a.links] else s.cached)
            && s'.stored == (if a.Save? then s.stored[s.Top(a.t).task.url := s.Top(a.t).phase.links] else s.stored)
  {
    hide Proceed, State.To, NextPhase;
    if !OfTask(a) {
      NothingRecorded(c, s, a);
    }
  }

  lemma FetchOne(c: Config, s: State, s': State, url: string, depth: nat)
    requires FetchedOnce(c, s) && url !in s.visited
    requires s'.visited == s.visited[url := depth] && s'.fetched == s.fetched + [url]
    ensures FetchedOnce(c, s')
  {
  }

  lemma FetchedOnceKept(c: Config, s: State, a: Action)
    requires Enabled(c, s, a) && FetchedOnce(c, s)
    ensures FetchedOnce(c, Apply(c, s, a))
  {
    hide Apply;
    var s' := Apply(c, s, a);
    OnlyVisitFetches(c, s, a);
    if s'.fetched != s.fetched {
      FetchOne(c, s, s', s.Top(a.t).task.url, s.Top(a.t).task.depth);
    }
  }

  ghost predicate Extends(small: map<string, nat>, big: map<string, nat>) {
    forall u :: u in small ==> u in big && big[u] == small[u]
  }

  lemma VisitedGrows(c: Config, s: State, a: Action)
    requires Enabled(c, s, a)
    ensures Extends(s.visited, Apply(c, s, a).visited)
  {
    hide Apply, Enabled;
    OnlyVisitFetches(c, s, a);
  }

  // ----- progress

  /** As long as Run has not returned, some step is possible. */
  lemma Progress(c: Config, s: State) returns (a: Action)
    requires c.Valid() && Counted(s) && Ordered(c, s) && !s.main.Returned?
    ensures Enabled(c, s, a)
  {
    if t: nat :| s.Running(t) {
      match s.Top(t).phase
      case Begin => a := Leave(t);
      case Fetching => a := Fail(t);
      case Saving(_) => a := Save(t);
      case Loading => a := Fail(t);
      case Submitting(rest) => a := if rest == [] then LinksDone(t) else AddChild(t);
      case Handing(_, _) => a := HandChild(t);
      case Finished => a := Done(t);
    } else {
      QuietStacks(s);
      match s.main
      case Seeding(urls) => a := if urls == [] then SeedingDone else Seed;
      case HandingSeed(_, _) => a := HandSeed;
      case Waiting =>
        if s.queue == [] {
          NothingLeft(s);
          a := WaitReturns;
        } else {
          a := Receive(1);
        }
      case Waited => a := CloseQuit;
      case QuitClosed => a := CloseBuf;
      case Stopping => a := StopReturns;
    }
  }

  lemma QuietStacks(s: State)
    requires forall t: nat :: !s.Running(t)
    ensures forall i :: 0 <= i < |s.stacks| ==> s.stacks[i] == []
  {
    forall i | 0 <= i < |s.stacks|
      ensures s.stacks[i] == []
    {
      assert !s.Running(i);
    }
  }

  lemma {:induction false} EmptyStacks(w: Frame -> nat, stacks: seq<seq<Frame>>)
    requires forall i :: 0 <= i < |stacks| ==> stacks[i] == []
    ensures StacksSum(w, stacks) == 0
  {
    if stacks != [] {
      EmptyStacks(w, stacks[..|stacks| - 1]);
    }
  }

  lemma NothingLeft(s: State)
    requires Counted(s) && s.queue == [] && s.main.Waiting?
    requires forall i :: 0 <= i < |s.stacks| ==> s.stacks[i] == []
    ensures s.wg == 0
  {
    EmptyStacks(CountWeights().frame, s.stacks);
  }

  // ----- whole runs

  ghost predicate Invariant(c: Config, s: State) {
    && Counted(s) && Ordered(c, s) && Conserved(s)
    && Bounded(c, s) && WithinBudget(c, s) && FetchedOnce(c, s)
  }

  lemma InitMass(c: Config, w: Weights)
    ensures Mass(w, Init(c)) == w.main(Seeding(c.startUrls))
  {
    EmptyStacks(w.frame, Init(c).stacks);
  }

  lemma InitInvariant(c: Config)
    ensures Invariant(c, Init(c))
  {
    InitMass(c, CountWeights());
    InitMass(c, BudgetWeights(c));
    forall id: nat
      ensures Mass(PlaceWeights(id), Init(c)) == 0
    {
      InitMass(c, PlaceWeights(id));
    }
  }

  lemma InvariantKept(c: Config, s: State, a: Action)
    requires Enabled(c, s, a) && Invariant(c, s)
    ensures Invariant(c, Apply(c, s, a))
  {
    hide Counted, Ordered, Conserved, Bounded, WithinBudget, FetchedOnce, Apply;
    CountedKept(c, s, a);
    OrderedKept(c, s, a);
    ConservedKept(c, s, a);
    BoundedKept(c, s, a);
    WithinBudgetKept(c, s, a);
    FetchedOnceKept(c, s, a);
  }

  lemma RunShortens(c: Config, s: State, a: Action)
    requires Enabled(c, s, a) && Invariant(c, s)
    ensures Measure(c, Apply(c, s, a)) < Measure(c, s)
  {
    hide Measure, Apply, Enabled, Counted, Ordered, Bounded;
    MeasureDrops(c, s, a);
  }

  /** Every state of every run satisfies the invariant, and the run so far is no longer than the
      measure it has used up. */
  lemma {:induction false} EveryRun(c: Config, steps: seq<Action>)
    requires After(c, steps).At?
    ensures Invariant(c, After(c, steps).state)
    ensures |steps| + Measure(c, After(c, steps).state) <= Measure(c, Init(c))
  {
    hide Invariant, Measure, Apply, Enabled;
    if steps == [] {
      InitInvariant(c);
    } else {
      var before, a := steps[..|steps| - 1], steps[|steps| - 1];
      EveryRun(c, before);
      InvariantKept(c, After(c, before).state, a);
      RunShortens(c, After(c, before).state, a);
    }
  }

  /** Once Wait has returned, no task is queued, running or being handed over, so nothing can be sent
      to the channel that Stop closes; and no run ever panics. */
  lemma QuietOnceWaited(c: Config, steps: seq<Action>)
    requires After(c, steps).At?
    ensures var s := After(c, steps).state;
            && !s.panicked
            && (s.main.Waited? || s.quit || s.closed ==>
                  s.queue == [] && (forall t: nat :: !s.Running(t)) && !s.main.HandingSeed?)
  {
    EveryRun(c, steps);
    var s := After(c, steps).state;
    if s.wg == 0 {
      Quiet(s);
    }
  }

  /** A run that can go no further: Run has returned, all workers have left, and every submitted task
      has been completed exactly once. */
  lemma MaximalRun(c: Config, steps: seq<Action>)
    requires c.Valid() && After(c, steps).At?
    requires forall a :: !Enabled(c, After(c, steps).state, a)
    ensures var s := After(c, steps).state;
            && s.main.Returned?
            && (forall t :: 0 < t < |s.alive| ==> !s.alive[t])
            && (forall id: nat :: Occurrences(s.completed, id) == if id < s.submitted then 1 else 0)
  {
    hide Apply, Bounded, WithinBudget, FetchedOnce, After, Counted, Mass;
    EveryRun(c, steps);
    var s := After(c, steps).state;
    if !s.main.Returned? {
      var a := Progress(c, s);
    }
    QuietOnceWaited(c, steps);
    forall t | 0 < t < |s.alive|
      ensures !s.alive[t]
    {
      assert !s.Running(t);
      assert !Enabled(c, s, Exit(t));
    }
    forall id: nat
      ensures Occurrences(s.completed, id) == if id < s.submitted then 1 else 0
    {
      NoPlaceLeft(s, id);
      assert Mass(PlaceWeights(id), s) + Occurrences(s.completed, id) == if id < s.submitted then 1 else 0;
    }
  }

  lemma NoPlaceLeft(s: State, id: nat)
    requires s.queue == [] && (forall t: nat :: !s.Running(t)) && s.main.Returned?
    ensures Mass(PlaceWeights(id), s) == 0
  {
    QuietStacks(s);
    EmptyStacks(PlaceWeights(id).frame, s.stacks);
  }

  /** The sum of links^k for k from 0 to the depth. */
  function PowerSum(links: nat, depth: nat): nat {
    if depth == 0 then 1 else PowerSum(links, depth - 1) + Power(links, depth)
  }

  function Power(x: nat, k: nat): nat {
    if k == 0 then 1 else x * Power(x, k - 1)
  }

  lemma {:induction false} TimesIsProduct(n: nat, x: nat)
    ensures Times(n, x) == n * x
  {
    if n > 0 {
      TimesIsProduct(n - 1, x);
      assert n * x == (n - 1) * x + x;
    }
  }

  lemma {:induction false} HornerStep(links: nat, depth: nat)
    ensures 1 + links * PowerSum(links, depth) == PowerSum(links, depth + 1)
  {
    if depth == 0 {
      assert Power(links, 1) == links * Power(links, 0);
    } else {
      HornerStep(links, depth - 1);
      assert links * (PowerSum(links, depth - 1) + Power(links, depth))
          == links * PowerSum(links, depth - 1) + links * Power(links, depth);
    }
  }

  lemma {:induction false} TreeIsPowerSum(links: nat, depth: nat)
    ensures Tree(links, depth) == PowerSum(links, depth)
  {
    if depth > 0 {
      TreeIsPowerSum(links, depth - 1);
      TimesIsProduct(links, Tree(links, depth - 1));
      HornerStep(links, depth - 1);
    }
  }

  /** The documented bound: start pages times the sum of the powers of the number of links. */
  lemma SubmittedBound(c: Config, steps: seq<Action>)
    requires After(c, steps).At?
    ensures After(c, steps).state.submitted <= |c.startUrls| * PowerSum(c.maxLinks, c.depth)
  {
    EveryRun(c, steps);
    TreeIsPowerSum(c.maxLinks, c.depth);
    TimesIsProduct(|c.startUrls|, Tree(c.maxLinks, c.depth));
  }

  /** Over a whole run a page is fetched at most once, and pages known from earlier runs never. */
  lemma SingleFetch(c: Config, steps: seq<Action>)
    requires After(c, steps).At?
    ensures var s := After(c, steps).state;
            Distinct(s.fetched) && forall u :: u in s.fetched ==> u !in c.loaded
  {
    hide Counted, Ordered, Conserved, Bounded, WithinBudget;
    EveryRun(c, steps);
  }

  /** However a run goes on, the depth once recorded for a page never changes. */
  lemma {:induction false} DepthNeverChanges(c: Config, steps: seq<Action>, more: seq<Action>)
    requires After(c, steps + more).At?
    ensures After(c, steps).At?
    ensures Extends(After(c, steps).state.visited, After(c, steps + more).state.visited)
    decreases |more|
  {
    hide Apply, Enabled;
    if more == [] {
      assert steps + more == steps;
    } else {
      var before := more[..|more| - 1];
      assert (steps + more)[..|steps + more| - 1] == steps + before;
      DepthNeverChanges(c, steps, before);
      VisitedGrows(c, After(c, steps + before).state, more[|more| - 1]);
    }
  }
}
