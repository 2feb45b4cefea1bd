/** Runs that miss a page: if every path to it leads through a page that is first looked up at the last depth
    and fetched slowly, nothing ever looks it up, however high it lies. */
module CrawlLosses {
  import opened CrawlMachine
  import opened CrawlCoverage
  import opened CrawlExactness
  import opened CrawlRaces

  // ----- as long as one page has not been read, nothing behind it is looked up

  /** A path leads to the page that has `y` nowhere before its end. */
  ghost predicate Avoids(c: Config, links: Links, y: string, url: string) {
    exists p :: PathTo(c, links, p, url) && forall i :: 0 <= i < |p| - 1 ==> p[i] != y
  }

  lemma StartAvoids(c: Config, links: Links, y: string, url: string)
    requires url in c.startUrls
    ensures Avoids(c, links, y, url)
  {
    assert PathTo(c, links, [url], url);
  }

  lemma LinkAvoids(c: Config, links: Links, y: string, url: string, next: string)
    requires Avoids(c, links, y, url) && next in links(url) && url != y
    ensures Avoids(c, links, y, next)
  {
    var p :| PathTo(c, links, p, url) && forall i :: 0 <= i < |p| - 1 ==> p[i] != y;
    assert PathTo(c, links, p + [next], next);
  }

  predicate Unread(f: Frame) {
    f.phase.Begin? || f.phase.Fetching? || f.phase.Loading? || f.phase.Finished?
  }

  ghost predicate FrameClear(c: Config, links: Links, y: string, f: Frame) {
    && Avoids(c, links, y, f.task.url) && HandsOn(links, f) && (f.task.url == y ==> Unread(f))
    && (f.phase.Handing? ==> Avoids(c, links, y, f.phase.child.url))
  }

  ghost function ClearWeights(c: Config, links: Links, y: string): Weights {
    Flags((t: Task) => Avoids(c, links, y, t.url), (f: Frame) => FrameClear(c, links, y, f),
          (m: Main) => MainFine(c, m))
  }

  ghost predicate Clear(c: Config, links: Links, y: string, s: State) {
    && Mass(ClearWeights(c, links, y), s) == 0 && y !in s.stored
    && forall u <- s.visited :: Avoids(c, links, y, u)
  }

  lemma NextClear(c: Config, links: Links, y: string, s: State, a: Action)
    requires Enabled(c, s, a) && Undisturbed(c, links, s, a) && ParsedTrue(links, s) && (OfTask(a) || a.HandChild?)
    requires FrameClear(c, links, y, s.Top(a.t)) && y !in s.cached && y !in s.stored
    requires a.Parse? ==> s.Top(a.t).task.url != y
    ensures FrameClear(c, links, y, s.Top(a.t).(phase := NextPhase(s, a, a.t)))
  {
    hide Avoids, HandsOn, Undisturbed;
    NextHandsOn(c, links, s, a);
    if a.AddChild? {
      var f := s.Top(a.t);
      FirstHandsOn(links, f);
      LinkAvoids(c, links, y, f.task.url, f.phase.rest[0]);
    }
  }

  lemma ClearChange(c: Config, links: Links, y: string, s: State, a: Action)
    requires Enabled(c, s, a) && Undisturbed(c, links, s, a) && ParsedTrue(links, s)
    requires Mass(ClearWeights(c, links, y), s) == 0 && y !in s.cached && y !in s.stored
    requires a.Parse? ==> s.Top(a.t).task.url != y
    ensures Change(c, ClearWeights(c, links, y), s, a) <= 0
  {
    hide Mass, Undisturbed, FrameClear, MainFine, NextPhase, Avoids;
    var w := ClearWeights(c, links, y);
    if OfTask(a) {
      TopWeighs(w, s, a.t);
      NextClear(c, links, y, s, a);
    } else {
      OtherClearChange(c, links, y, s, a);
    }
  }

  lemma OtherClearChange(c: Config, links: Links, y: string, s: State, a: Action)
    requires Enabled(c, s, a) && Undisturbed(c, links, s, a) && ParsedTrue(links, s) && !OfTask(a)
    requires Mass(ClearWeights(c, links, y), s) == 0 && y !in s.cached && y !in s.stored
    ensures Change(c, ClearWeights(c, links, y), s, a) <= 0
  {
    hide Mass, Undisturbed, Avoids, HandsOn;
    var w := ClearWeights(c, links, y);
    MainWeighs(w, s);
    match a
    case Receive(_) =>
      FirstWeighs(w, s);
      BeginHandsOn(links, s.queue[0]);
    case Done(_) => TopWeighs(w, s, a.t);
    case HandChild(_) =>
      TopWeighs(w, s, a.t);
      NextClear(c, links, y, s, a);
      BeginHandsOn(links, s.Top(a.t).phase.child);
    case HandSeed =>
      StartAvoids(c, links, y, s.main.seed.url);
      BeginHandsOn(links, s.main.seed);
    case Seed => SeedFine(c, s);
    case _ =>
  }

  lemma ClearKept(c: Config, links: Links, y: string, s: State, a: Action)
    requires Enabled(c, s, a) && Counted(s) && Ordered(c, s) && Undisturbed(c, links, s, a) && ParsedTrue(links, s)
    requires Clear(c, links, y, s) && y !in Apply(c, s, a).cached
    ensures Clear(c, links, y, Apply(c, s, a)) && y !in s.cached
  {
    hide Change, Mass, Apply, Counted, Ordered, ParsedTrue, Undisturbed, Avoids;
    OnlyParseReads(c, s, a);
    CountedKept(c, s, a);
    StepMass(c, ClearWeights(c, links, y), s, a);
    ClearChange(c, links, y, s, a);
    OnlyVisitFetches(c, s, a);
    if a.Save? || a.Visit? {
      TopWeighs(ClearWeights(c, links, y), s, a.t);
    }
  }

  lemma InitClear(c: Config, links: Links, y: string)
    requires FromNothing(c, links)
    ensures Clear(c, links, y, Init(c))
  {
    InitMass(c, ClearWeights(c, links, y));
  }

  /** As long as the page has not been read, only pages are recorded that a path leads to without it. */
  lemma {:induction false} ClearRun(c: Config, links: Links, y: string, steps: seq<Action>)
    requires After(c, steps).At? && Smooth(c, links, steps) && FromNothing(c, links)
    requires y !in After(c, steps).state.cached
    ensures Clear(c, links, y, After(c, steps).state)
  {
    hide Clear, Traced, Complete, Apply, Enabled, Undisturbed, Counted, Ordered, FetchedOnce, Conserved, Bounded,
      WithinBudget, FromNothing;
    if steps == [] {
      InitClear(c, links, y);
    } else {
      var before, a := steps[..|steps| - 1], steps[|steps| - 1];
      var s := After(c, before).state;
      CachedStays(c, s, a);
      ClearRun(c, links, y, before);
      EveryRun(c, before);
      NothingBanked(c, links);
      SmoothRun(c, links, before);
      TracedParsed(c, links, s, LookedUp(c, before));
      ClearKept(c, links, y, s, a);
    }
  }

  lemma NothingBanked(c: Config, links: Links)
    requires FromNothing(c, links)
    ensures BankTrue(c, links) && Short(c, c.bank)
  {
  }

  lemma CachedStays(c: Config, s: State, a: Action)
    requires Enabled(c, s, a)
    ensures s.cached.Keys <= Apply(c, s, a).cached.Keys
  {
    hide Apply, Enabled;
    OnlyParseReads(c, s, a);
  }

  // ----- a page is fetched by one task only

  function FetchWeights(y: string): Weights {
    Weights((t: Task) => 0, (f: Frame) => if f.phase.Fetching? && f.task.url == y then 1 else 0, (m: Main) => 0)
  }

  ghost predicate OneFetch(y: string, s: State) {
    Mass(FetchWeights(y), s) <= if y in s.visited then 1 else 0
  }

  lemma OneFetchKept(c: Config, y: string, s: State, a: Action)
    requires Enabled(c, s, a) && Counted(s) && Ordered(c, s) && OneFetch(y, s)
    ensures OneFetch(y, Apply(c, s, a))
  {
    hide Change, Mass, Apply, Counted, Ordered, FetchWeights;
    CountedKept(c, s, a);
    StepMass(c, FetchWeights(y), s, a);
    FetchChange(c, y, s, a);
    OnlyVisitFetches(c, s, a);
  }

  lemma FetchChange(c: Config, y: string, s: State, a: Action)
    requires Enabled(c, s, a)
    ensures Change(c, FetchWeights(y), s, a) <=
            if a.Visit? && s.Top(a.t).task.url == y && y !in s.visited then 1 else 0
  {
  }

  lemma {:induction false} OneFetchRun(c: Config, y: string, steps: seq<Action>)
    requires After(c, steps).At?
    ensures OneFetch(y, After(c, steps).state)
  {
    hide OneFetch, Apply, Enabled, Counted, Ordered, FetchedOnce, Conserved, Bounded, WithinBudget;
    if steps == [] {
      NothingFetched(c, y);
    } else {
      var before, a := steps[..|steps| - 1], steps[|steps| - 1];
      OneFetchRun(c, y, before);
      EveryRun(c, before);
      OneFetchKept(c, y, After(c, before).state, a);
    }
  }

  lemma NothingFetched(c: Config, y: string)
    ensures OneFetch(y, Init(c))
  {
    InitMass(c, FetchWeights(y));
  }

  lemma OnlyOneFetches(y: string, s: State, t: nat, i: nat, task: Task)
    requires OneFetch(y, s) && Only(s, t, Frame(task, Fetching)) && task.url == y && i != t && s.Running(i)
    ensures !(s.Top(i).phase.Fetching? && s.Top(i).task.url == y)
  {
    hide Mass;
    var w := FetchWeights(y);
    PopMass(w, s, t);
    assert s.Pop(t).stacks[i] == s.stacks[i];
    TopWeighs(w, s.Pop(t), i);
  }

  // ----- everything goes on but one fetch

  /** The thread whose stack a step may change. */
  function Actor(a: Action): nat {
    match a
    case Receive(t) => t
    case Exit(t) => t
    case Leave(t) => t
    case Visit(t) => t
    case Fail(t) => t
    case Parse(t, _) => t
    case Save(t) => t
    case Deliver(t, _) => t
    case Missing(t) => t
    case AddChild(t) => t
    case LinksDone(t) => t
    case HandChild(t) => t
    case Done(t) => t
    case _ => 0
  }

  lemma OthersStay(c: Config, s: State, a: Action, i: nat)
    requires Enabled(c, s, a) && i != Actor(a) && i < |s.stacks|
    ensures |Apply(c, s, a).stacks| == |s.stacks| && Apply(c, s, a).stacks[i] == s.stacks[i]
  {
    if OfTask(a) {
      hide Apply;
      TaskStep(c, s, a);
    }
  }

  /** What the task on top of a stack does next in a sharp run. */
  lemma SharpNext(c: Config, links: Links, s: State, t: nat) returns (a: Action)
    requires s.Running(t) && Short(c, s.cached) && Short(c, s.stored) && forall u :: |links(u)| <= c.maxLinks
    ensures Enabled(c, s, a) && Sharp(c, links, s, a) && Actor(a) == t
    ensures a.Parse? ==> s.Top(t).phase.Fetching?
  {
    var f := s.Top(t);
    match f.phase
    case Begin => a := if f.task.depth < c.depth then Visit(t) else Leave(t);
    case Fetching => a := Parse(t, Kept(s.visited, f.task.depth, links(f.task.url)));
    case Saving(_) => a := Save(t);
    case Loading =>
      a := if f.task.url in s.cached then Deliver(t, s.cached[f.task.url])
           else if f.task.url in s.stored then Deliver(t, s.stored[f.task.url])
           else Missing(t);
    case Submitting(rest) => a := if rest == [] then LinksDone(t) else AddChild(t);
    case Handing(_, _) => a := HandChild(t);
    case Finished => a := Done(t);
  }

  /** Only thread `t` has something to do, and Run waits. */
  ghost predicate OnlyBusy(s: State, t: nat) {
    s.queue == [] && s.main.Waiting? && forall i: nat :: i < |s.stacks| && i != t ==> s.stacks[i] == []
  }

  lemma RunIsRunning(s: State, t: nat, task: Task)
    requires Only(s, t, Frame(task, Fetching)) && Counted(s)
    ensures s.wg >= 1
  {
    assert s.Running(t);
    RunningCounts(s, t);
  }

  /** With at least two workers, something else can go on while a page is being fetched, until that is all there is. */
  lemma OtherProgress(c: Config, links: Links, steps: seq<Action>, s: State, t: nat, task: Task) returns (a: Action)
    requires Now(c, links, steps, s) && FromNothing(c, links) && c.workers >= 2
    requires 0 < t && Only(s, t, Frame(task, Fetching)) && !OnlyBusy(s, t)
    ensures Enabled(c, s, a) && Sharp(c, links, s, a) && Actor(a) != t
    ensures a.Parse? ==> s.Top(a.t).task.url != task.url
  {
    hide Conserved, Bounded, WithinBudget, FetchedOnce, Apply, Sharp, OneFetch, AllSharp;
    EveryRun(c, steps);
    ShortLists(c, links, steps, s);
    RunIsRunning(s, t, task);
    if i: nat :| i != t && s.Running(i) {
      OneFetchRun(c, task.url, steps);
      OnlyOneFetches(task.url, s, t, i, task);
      a := SharpNext(c, links, s, i);
    } else {
      forall i: nat | i < |s.stacks| && i != t
        ensures s.stacks[i] == []
      {
        assert !s.Running(i);
      }
      a := IdleStep(c, s, t);
      PlainIsSharp(c, links, s, a);
    }
  }

  lemma ShortLists(c: Config, links: Links, steps: seq<Action>, s: State)
    requires Now(c, links, steps, s) && FromNothing(c, links)
    ensures Short(c, s.cached) && Short(c, s.stored) && forall u :: |links(u)| <= c.maxLinks
  {
    hide Short;
    NothingBanked(c, links);
    ListsAreShort(c, steps);
  }

  /** When no other thread runs a task, an idle worker takes one from the queue, or Run submits a start page. */
  lemma IdleStep(c: Config, s: State, t: nat) returns (a: Action)
    requires Ordered(c, s) && s.wg >= 1 && c.workers >= 2 && 0 < t && !OnlyBusy(s, t)
    requires forall i: nat :: i < |s.stacks| && i != t ==> s.stacks[i] == []
    ensures Enabled(c, s, a) && Actor(a) != t
    ensures !a.Leave? && !a.Fail? && !a.Parse? && !a.Missing?
  {
    if s.queue != [] {
      a := Receive(if t == 1 then 2 else 1);
    } else {
      match s.main
      case Seeding(urls) => a := if urls == [] then SeedingDone else Seed;
      case HandingSeed(_, _) => a := HandSeed;
      case Waiting =>
    }
  }

  /** A run goes on until a fetch in progress is all that is left to do. */
  lemma {:induction false} Freeze(c: Config, links: Links, steps: seq<Action>, s: State, t: nat, task: Task)
    returns (steps': seq<Action>, s': State)
    requires Now(c, links, steps, s) && FromNothing(c, links) && c.workers >= 2 && 0 < t
    requires Only(s, t, Frame(task, Fetching)) && task.url !in s.cached
    ensures Now(c, links, steps', s') && OnlyBusy(s', t)
    ensures Only(s', t, Frame(task, Fetching)) && task.url !in s'.cached
    decreases Measure(c, s)
  {
    hide Now, OnlyBusy, Measure, Invariant, Apply, Enabled, Sharp, FromNothing;
    if OnlyBusy(s, t) {
      steps', s' := steps, s;
    } else {
      var a := OtherProgress(c, links, steps, s, t, task);
      var s1 := Apply(c, s, a);
      OneStep(c, links, steps, s, a);
      OthersStay(c, s, a, t);
      StaysUnread(c, s, a, task.url);
      Shortens(c, links, steps, s, a);
      steps', s' := Freeze(c, links, steps + [a], s1, t, task);
    }
  }

  lemma StaysUnread(c: Config, s: State, a: Action, url: string)
    requires Enabled(c, s, a) && url !in s.cached && (a.Parse? ==> s.Top(a.t).task.url != url)
    ensures url !in Apply(c, s, a).cached
  {
    hide Apply;
    OnlyParseReads(c, s, a);
  }

  lemma Shortens(c: Config, links: Links, steps: seq<Action>, s: State, a: Action)
    requires Now(c, links, steps, s) && Enabled(c, s, a)
    ensures Measure(c, Apply(c, s, a)) < Measure(c, s)
  {
    hide Invariant, Measure, Apply, Enabled, AllSharp;
    EveryRun(c, steps);
    RunShortens(c, s, a);
  }

  // ----- once everything left is at the depth limit, nothing more is looked up

  predicate FrameLate(c: Config, f: Frame) {
    match f.phase
    case Begin => f.task.depth >= c.depth
    case Fetching => false
    case Loading => false
    case Saving(_) => f.task.depth + 1 >= c.depth
    case Submitting(_) => f.task.depth + 1 >= c.depth
    case Handing(child, _) => child.depth >= c.depth && f.task.depth + 1 >= c.depth
    case Finished => true
  }

  function LateWeights(c: Config): Weights {
    Weights((t: Task) => if t.depth >= c.depth then 0 else 1, (f: Frame) => if FrameLate(c, f) then 0 else 1,
            (m: Main) => if m.HandingSeed? || (m.Seeding? && m.urls != []) then 1 else 0)
  }

  ghost predicate Late(c: Config, s: State) {
    Mass(LateWeights(c), s) == 0
  }

  lemma LateChange(c: Config, s: State, a: Action)
    requires Enabled(c, s, a) && Late(c, s)
    ensures Change(c, LateWeights(c), s, a) <= 0 && !a.Visit?
  {
    hide Mass;
    var w := LateWeights(c);
    MainWeighs(w, s);
    if OfTask(a) {
      TopWeighs(w, s, a.t);
    } else {
      OtherLateChange(c, s, a);
    }
  }

  lemma OtherLateChange(c: Config, s: State, a: Action)
    requires Enabled(c, s, a) && Late(c, s) && !OfTask(a)
    ensures Change(c, LateWeights(c), s, a) <= 0
  {
    hide Mass;
    var w := LateWeights(c);
    MainWeighs(w, s);
    match a
    case Receive(_) => FirstWeighs(w, s);
    case HandChild(_) => TopWeighs(w, s, a.t);
    case _ =>
  }

  lemma LateKept(c: Config, s: State, a: Action)
    requires Enabled(c, s, a) && Counted(s) && Ordered(c, s) && Late(c, s)
    ensures Late(c, Apply(c, s, a)) && Apply(c, s, a).fetched == s.fetched
  {
    hide Change, Mass, Apply, Counted, Ordered, LateWeights;
    CountedKept(c, s, a);
    StepMass(c, LateWeights(c), s, a);
    LateChange(c, s, a);
    OnlyVisitFetches(c, s, a);
  }

  lemma AnyStep(c: Config, links: Links, steps: seq<Action>, s: State) returns (a: Action)
    requires Now(c, links, steps, s) && FromNothing(c, links) && c.Valid() && !s.main.Returned?
    ensures Enabled(c, s, a) && Sharp(c, links, s, a)
  {
    hide Conserved, Bounded, WithinBudget, FetchedOnce, Apply, Sharp, AllSharp;
    EveryRun(c, steps);
    ShortLists(c, links, steps, s);
    if t: nat :| s.Running(t) {
      a := SharpNext(c, links, s, t);
    } else {
      a := Progress(c, s);
      NoTaskIsSharp(c, links, s, a);
    }
  }

  lemma NoTaskIsSharp(c: Config, links: Links, s: State, a: Action)
    requires Enabled(c, s, a) && forall t: nat :: !s.Running(t)
    ensures Sharp(c, links, s, a)
  {
  }

  /** A run in which everything is late goes on until Run returns, and fetches nothing more. */
  lemma {:induction false} Finish(c: Config, links: Links, steps: seq<Action>, s: State)
    returns (steps': seq<Action>, s': State)
    requires Now(c, links, steps, s) && FromNothing(c, links) && c.Valid() && Late(c, s)
    ensures Now(c, links, steps', s') && s'.main.Returned? && s'.fetched == s.fetched
    decreases Measure(c, s)
  {
    hide Now, Late, Measure, Apply, Enabled, Sharp, FromNothing, Counted, Ordered, Config.Valid;
    if s.main.Returned? {
      steps', s' := steps, s;
    } else {
      var a := AnyStep(c, links, steps, s);
      OneStep(c, links, steps, s, a);
      Shortens(c, links, steps, s, a);
      StillCounted(c, links, steps, s);
      LateKept(c, s, a);
      steps', s' := Finish(c, links, steps + [a], Apply(c, s, a));
    }
  }

  lemma StillCounted(c: Config, links: Links, steps: seq<Action>, s: State)
    requires Now(c, links, steps, s)
    ensures Counted(s) && Ordered(c, s) && FetchedOnce(c, s)
  {
    hide Counted, Ordered, Conserved, Bounded, WithinBudget, FetchedOnce, AllSharp;
    EveryRun(c, steps);
  }

  // ----- a page is missed

  lemma {:induction false} ZeroSum(w: Frame -> nat, fs: seq<Frame>)
    requires forall f <- fs :: w(f) == 0
    ensures Sum(w, fs) == 0
  {
    if fs != [] {
      var front, last := fs[..|fs| - 1], fs[|fs| - 1];
      assert last in fs && forall f <- front :: f in fs;
      ZeroSum(w, front);
    }
  }

  lemma {:induction false} ZeroStacks(w: Frame -> nat, stacks: seq<seq<Frame>>)
    requires forall i :: 0 <= i < |stacks| ==> forall f <- stacks[i] :: w(f) == 0
    ensures StacksSum(w, stacks) == 0
  {
    if stacks != [] {
      ZeroStacks(w, stacks[..|stacks| - 1]);
      ZeroSum(w, stacks[|stacks| - 1]);
    }
  }

  lemma SavingIsLate(c: Config, s: State, t: nat, f: Frame)
    requires OnlyBusy(s, t) && Only(s, t, f) && FrameLate(c, f)
    ensures Late(c, s)
  {
    ZeroStacks(LateWeights(c).frame, s.stacks);
  }

  /** The page fetched at the last depth is read at last, and everything ends. */
  lemma ReadLast(c: Config, links: Links, steps: seq<Action>, s: State, t: nat, task: Task)
    returns (steps': seq<Action>, s': State)
    requires Now(c, links, steps, s) && FromNothing(c, links) && c.Valid() && OnlyBusy(s, t)
    requires Only(s, t, Frame(task, Fetching)) && task.depth + 1 == c.depth
    ensures Now(c, links, steps', s') && s'.main.Returned? && s'.fetched == s.fetched
  {
    hide Now, Late, Apply, Enabled, Sharp;
    var ls := Kept(s.visited, task.depth, links(task.url));
    Parses(c, links, s, t, task);
    var s1 := Apply(c, s, Parse(t, ls));
    OneStep(c, links, steps, s, Parse(t, ls));
    SavingIsLate(c, s1, t, Frame(task, Saving(ls)));
    steps', s' := Finish(c, links, steps + [Parse(t, ls)], s1);
  }

  /** With enough workers, a crawl from nothing, cut short by nothing from outside, misses a page if every path
      to it leads through a page at the end of a simple path of just as many links as lead to the last depth. */
  lemma PageMissed(c: Config, links: Links, q: seq<string>, y: string, v: string)
    returns (steps: seq<Action>, s: State)
    requires FromNothing(c, links) && EnoughWorkers(c, |q|) && c.workers >= 2
    requires SimplePathTo(c, links, q, y) && |q| == c.depth && !Avoids(c, links, y, v)
    ensures Now(c, links, steps, s) && s.main.Returned? && v !in s.fetched
  {
    hide Now, Approached, Path, Avoids, OnlyBusy, EnoughWorkers, FromNothing;
    LastOf(c, links, q, y);
    Capable(c, |q|);
    var steps1, s1, n, t, task := Approach(c, links, q);
    LastUnread(c, links, s1, q, n);
    var steps2, s2 := Freeze(c, links, steps1, s1, t, task);
    NotYetFetched(c, links, steps2, s2, y, v);
    steps, s := ReadLast(c, links, steps2, s2, t, task);
  }

  lemma Capable(c: Config, n: nat)
    requires EnoughWorkers(c, n) && c.workers >= 2
    ensures c.Valid()
  {
  }

  lemma LastUnread(c: Config, links: Links, s: State, q: seq<string>, n: nat)
    requires Approached(c, links, s, q, n) && Simple(q)
    ensures q[|q| - 1] !in s.cached
  {
    hide PagesOf, Calm, Open;
    NotAmong(q, 0, |q| - 1, q[|q| - 1]);
  }

  lemma NotYetFetched(c: Config, links: Links, steps: seq<Action>, s: State, y: string, v: string)
    requires Now(c, links, steps, s) && FromNothing(c, links) && y !in s.cached && !Avoids(c, links, y, v)
    ensures v !in s.fetched
  {
    hide AllSharp, Smooth, Mass, Avoids, Counted, Ordered, FromNothing;
    StillCounted(c, links, steps, s);
    SharpIsSmooth(c, links, steps);
    ClearRun(c, links, y, steps);
  }

  // ----- a crawl that misses a page

  /** "a" links to "u" and "u" to "v". */
  function ThreePages(url: string): seq<string> {
    if url == "a" then ["u"] else if url == "u" then ["v"] else []
  }

  /** Four workers, depth limit two, start pages "a" and "u": some run misses "v", which lies one link below a
      start page. The task for "a" is worked off first; it makes "u" known one level too deep. */
  lemma MissesOneLinkAway() returns (c: Config, steps: seq<Action>, s: State)
    ensures c == Config(4, 1, 2, 1, ["a", "u"], map[], map[])
    ensures Now(c, ThreePages, steps, s) && Smooth(c, ThreePages, steps)
    ensures s.main.Returned? && Reachable(c, ThreePages, "v", 1) && "v" !in s.fetched
  {
    hide Now, Smooth;
    c := Config(4, 1, 2, 1, ["a", "u"], map[], map[]);
    assert Times(2, 1) == Times(1, 1) + 1 == Times(0, 1) + 2 == 2;
    assert SimplePathTo(c, ThreePages, ["a", "u"], "u") && PathTo(c, ThreePages, ["u", "v"], "v");
    OnlyThroughU(c);
    steps, s := PageMissed(c, ThreePages, ["a", "u"], "u", "v");
    NowSmooth(c, ThreePages, steps, s);
  }

  lemma NowSmooth(c: Config, links: Links, steps: seq<Action>, s: State)
    requires Now(c, links, steps, s)
    ensures After(c, steps).At? && Smooth(c, links, steps)
  {
    SharpIsSmooth(c, links, steps);
  }

  lemma OnlyThroughU(c: Config)
    requires c.startUrls == ["a", "u"]
    ensures !Avoids(c, ThreePages, "u", "v")
  {
    forall p | PathTo(c, ThreePages, p, "v")
      ensures exists i :: 0 <= i < |p| - 1 && p[i] == "u"
    {
      var k := |p| - 1;
      assert k > 0;
      assert p[k] in ThreePages(p[k - 1]);
      assert p[k - 1] == "u";
    }
  }
}
