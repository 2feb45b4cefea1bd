/** Which pages a crawl reaches when nothing from outside cuts it short. Soundness holds in every
    interleaving; completeness does not, because a page may first be looked up deeper than it lies. */
module CrawlCoverage {
  import opened CrawlMachine

  type Links = string -> seq<string>

  // ----- undisturbed runs

  /** What a fetch at this depth reads from a page: its links, except that one recorded at no greater
      depth when it was read may have been left out. */
  predicate ReadAt(visited: map<string, nat>, depth: nat, links: seq<string>, read: seq<string>) {
    && (forall v <- read :: v in links)
    && (forall v <- links :: v in read || (v in visited && visited[v] <= depth))
  }

  /** No failure from outside: a task leaves before its page is looked up only at the depth limit, and a
      fetched page hands on what was read. A page looked up again may still find no links. */
  predicate Undisturbed(c: Config, links: Links, s: State, a: Action)
    requires Enabled(c, s, a)
  {
    && (a.Leave? ==> s.Top(a.t).task.depth >= c.depth)
    && !a.Fail?
    && (a.Parse? ==> ReadAt(s.visited, s.Top(a.t).task.depth, links(s.Top(a.t).task.url), a.links))
  }

  predicate Smooth(c: Config, links: Links, steps: seq<Action>)
    requires After(c, steps).At?
  {
    steps == [] ||
    var before, a := steps[..|steps| - 1], steps[|steps| - 1];
    Smooth(c, links, before) && Undisturbed(c, links, After(c, before).state, a)
  }

  /** The task a step looks up, with its page and depth. */
  function LookUp(s: State, a: Action): set<(string, nat)> {
    if a.Visit? && s.Running(a.t) then {(s.Top(a.t).task.url, s.Top(a.t).task.depth)} else {}
  }

  /** All pages looked up in a run, with the depths at which they were. */
  function LookedUp(c: Config, steps: seq<Action>): set<(string, nat)>
    requires After(c, steps).At?
  {
    if steps == [] then {}
    else
      var before, a := steps[..|steps| - 1], steps[|steps| - 1];
      LookedUp(c, before) + LookUp(After(c, before).state, a)
  }

  // ----- paths of links

  /** A path of links from a start page. */
  predicate Path(c: Config, links: Links, p: seq<string>) {
    && p != [] && p[0] in c.startUrls
    && forall i :: 0 < i < |p| ==> p[i] in links(p[i - 1])
  }

  predicate PathTo(c: Config, links: Links, p: seq<string>, url: string) {
    Path(c, links, p) && p[|p| - 1] == url
  }

  /** A path of `depth` links leads from a start page to `url`. */
  ghost predicate Reachable(c: Config, links: Links, url: string, depth: nat) {
    exists p :: PathTo(c, links, p, url) && |p| == depth + 1
  }

  lemma StartReachable(c: Config, links: Links, url: string)
    requires url in c.startUrls
    ensures Reachable(c, links, url, 0)
  {
    assert PathTo(c, links, [url], url);
  }

  lemma LinkReachable(c: Config, links: Links, url: string, depth: nat, next: string)
    requires Reachable(c, links, url, depth) && next in links(url)
    ensures Reachable(c, links, next, depth + 1)
  {
    var p :| PathTo(c, links, p, url) && |p| == depth + 1;
    assert PathTo(c, links, p + [next], next);
  }

  /** The stored links of an earlier run are links of their pages. */
  predicate BankTrue(c: Config, links: Links) {
    TrueLinks(links, c.bank)
  }

  // ----- flags: weights that count what is not as it should be

  ghost function Flags(task: Task -> bool, frame: Frame -> bool, main: Main -> bool): Weights {
    Weights((t: Task) => if task(t) then 0 else 1, (f: Frame) => if frame(f) then 0 else 1,
            (m: Main) => if main(m) then 0 else 1)
  }

  lemma TopWeighs(w: Weights, s: State, t: nat)
    requires s.Running(t)
    ensures Mass(w, s) >= w.frame(s.Top(t))
  {
    StackWeighs(w.frame, s.stacks, t);
  }

  lemma MainWeighs(w: Weights, s: State)
    ensures Mass(w, s) >= w.main(s.main)
  {
  }

  lemma FirstWeighs(w: Weights, s: State)
    requires s.queue != []
    ensures Mass(w, s) >= w.task(s.queue[0])
  {
    SumFirst(w.task, s.queue);
  }

  // ----- nothing is looked up that cannot be reached

  /** The links still to be handed on are links of the page, and a child lies one level deeper. */
  predicate HandsOn(links: Links, f: Frame) {
    match f.phase
    case Saving(rest) => forall v <- rest :: v in links(f.task.url)
    case Submitting(rest) => forall v <- rest :: v in links(f.task.url)
    case Handing(child, rest) =>
      child.url in links(f.task.url) && child.depth == f.task.depth + 1 && forall v <- rest :: v in links(f.task.url)
    case _ => true
  }

  ghost predicate TaskTraced(c: Config, links: Links, t: Task) {
    Reachable(c, links, t.url, t.depth)
  }

  ghost predicate FrameTraced(c: Config, links: Links, f: Frame) {
    TaskTraced(c, links, f.task) && HandsOn(links, f) && (f.phase.Handing? ==> TaskTraced(c, links, f.phase.child))
  }

  predicate MainFine(c: Config, m: Main) {
    match m
    case Seeding(urls) => forall u <- urls :: u in c.startUrls
    case HandingSeed(seed, urls) => seed.url in c.startUrls && seed.depth == 0 && forall u <- urls :: u in c.startUrls
    case _ => true
  }

  ghost function TraceWeights(c: Config, links: Links): Weights {
    Flags((t: Task) => TaskTraced(c, links, t), (f: Frame) => FrameTraced(c, links, f), (m: Main) => MainFine(c, m))
  }

  predicate TrueLinks(links: Links, found: map<string, seq<string>>) {
    forall u <- found :: forall v <- found[u] :: v in links(u)
  }

  ghost predicate ParsedTrue(links: Links, s: State) {
    TrueLinks(links, s.cached) && TrueLinks(links, s.stored)
  }

  lemma ParsedTrueKept(c: Config, links: Links, s: State, a: Action)
    requires Enabled(c, s, a) && Undisturbed(c, links, s, a) && ParsedTrue(links, s)
    requires a.Save? ==> HandsOn(links, s.Top(a.t))
    ensures ParsedTrue(links, Apply(c, s, a))
  {
    hide Apply;
    OnlyParseReads(c, s, a);
  }

  /** The next phase of a task hands on links of its page. */
  lemma NextHandsOn(c: Config, links: Links, s: State, a: Action)
    requires Enabled(c, s, a) && Undisturbed(c, links, s, a) && ParsedTrue(links, s)
    requires (OfTask(a) || a.HandChild?) && HandsOn(links, s.Top(a.t))
    ensures HandsOn(links, s.Top(a.t).(phase := NextPhase(s, a, a.t)))
  {
    match a
    case AddChild(t) =>
      var rest := s.Top(t).phase.rest;
      assert rest[0] in rest && forall v <- rest[1..] :: v in rest;
    case _ =>
  }

  lemma SeedFine(c: Config, s: State)
    requires s.main.Seeding? && s.main.urls != [] && MainFine(c, s.main)
    ensures MainFine(c, HandingSeed(Task(s.submitted, s.main.urls[0], 0), s.main.urls[1..]))
  {
    assert s.main.urls[0] in s.main.urls && forall u <- s.main.urls[1..] :: u in s.main.urls;
  }

  lemma NextTraced(c: Config, links: Links, s: State, a: Action)
    requires Enabled(c, s, a) && Undisturbed(c, links, s, a) && ParsedTrue(links, s)
    requires (OfTask(a) || a.HandChild?) && FrameTraced(c, links, s.Top(a.t))
    ensures FrameTraced(c, links, s.Top(a.t).(phase := NextPhase(s, a, a.t)))
  {
    hide Reachable, Undisturbed, HandsOn;
    NextHandsOn(c, links, s, a);
    if a.AddChild? {
      var f := s.Top(a.t);
      FirstHandsOn(links, f);
      LinkReachable(c, links, f.task.url, f.task.depth, f.phase.rest[0]);
    }
  }

  lemma FirstHandsOn(links: Links, f: Frame)
    requires f.phase.Submitting? && f.phase.rest != [] && HandsOn(links, f)
    ensures f.phase.rest[0] in links(f.task.url)
  {
    assert f.phase.rest[0] in f.phase.rest;
  }

  lemma TraceChange(c: Config, links: Links, s: State, a: Action)
    requires Enabled(c, s, a) && Undisturbed(c, links, s, a) && ParsedTrue(links, s)
    requires Mass(TraceWeights(c, links), s) == 0
    ensures Change(c, TraceWeights(c, links), s, a) <= 0
  {
    hide Mass, Undisturbed, FrameTraced, MainFine, NextPhase;
    var w := TraceWeights(c, links);
    MainWeighs(w, s);
    if OfTask(a) {
      TopWeighs(w, s, a.t);
      NextTraced(c, links, s, a);
    } else {
      OtherTraceChange(c, links, s, a);
    }
  }

  lemma OtherTraceChange(c: Config, links: Links, s: State, a: Action)
    requires Enabled(c, s, a) && Undisturbed(c, links, s, a) && ParsedTrue(links, s) && !OfTask(a)
    requires Mass(TraceWeights(c, links), s) == 0
    ensures Change(c, TraceWeights(c, links), s, a) <= 0
  {
    hide Mass, Undisturbed, Reachable, HandsOn;
    var w := TraceWeights(c, links);
    MainWeighs(w, s);
    match a
    case Receive(_) =>
      FirstWeighs(w, s);
      assert HandsOn(links, Frame(s.queue[0], Begin)) by { BeginHandsOn(links, s.queue[0]); }
    case Done(_) => TopWeighs(w, s, a.t);
    case HandChild(_) =>
      TopWeighs(w, s, a.t);
      NextTraced(c, links, s, a);
      BeginHandsOn(links, s.Top(a.t).phase.child);
    case HandSeed =>
      StartReachable(c, links, s.main.seed.url);
      BeginHandsOn(links, s.main.seed);
    case Seed => SeedFine(c, s);
    case _ =>
  }

  lemma BeginHandsOn(links: Links, t: Task)
    ensures HandsOn(links, Frame(t, Begin))
  {
  }

  /** Everything queued, running or handed over is reachable at its depth, and so is all that was looked up. */
  ghost predicate Traced(c: Config, links: Links, s: State, looked: set<(string, nat)>) {
    && Mass(TraceWeights(c, links), s) == 0 && ParsedTrue(links, s)
    && forall l <- looked :: l.1 < c.depth && Reachable(c, links, l.0, l.1)
  }

  lemma TracedKept(c: Config, links: Links, s: State, a: Action, looked: set<(string, nat)>)
    requires Enabled(c, s, a) && Counted(s) && Ordered(c, s)
    requires Undisturbed(c, links, s, a) && Traced(c, links, s, looked)
    ensures Traced(c, links, Apply(c, s, a), looked + LookUp(s, a))
  {
    hide Change, Mass, Apply, Counted, Ordered, Reachable, ParsedTrue, Undisturbed;
    CountedKept(c, s, a);
    StepMass(c, TraceWeights(c, links), s, a);
    TraceChange(c, links, s, a);
    if a.Visit? || a.Save? {
      TopWeighs(TraceWeights(c, links), s, a.t);
    }
    ParsedTrueKept(c, links, s, a);
  }

  // ----- links left by an earlier run

  ghost predicate FrameFresh(c: Config, f: Frame) {
    f.phase.Fetching? || f.phase.Saving? ==> f.task.url !in c.loaded
  }

  ghost function FreshWeights(c: Config): Weights {
    Flags((t: Task) => true, (f: Frame) => FrameFresh(c, f), (m: Main) => true)
  }

  /** Pages known from an earlier run are not fetched, so their stored links stay as they were. */
  ghost predicate BankKept(c: Config, s: State) {
    && Mass(FreshWeights(c), s) == 0
    && forall u <- c.loaded :: u !in s.cached && (u in c.bank ==> u in s.stored && s.stored[u] == c.bank[u])
  }

  lemma FreshChange(c: Config, s: State, a: Action)
    requires Enabled(c, s, a) && FetchedOnce(c, s) && Mass(FreshWeights(c), s) == 0
    ensures Change(c, FreshWeights(c), s, a) <= 0
  {
    hide Mass;
    if OfTask(a) || a.Done? || a.HandChild? {
      TopWeighs(FreshWeights(c), s, a.t);
    }
  }

  lemma BankKeptStep(c: Config, s: State, a: Action)
    requires Enabled(c, s, a) && Counted(s) && Ordered(c, s) && FetchedOnce(c, s) && BankKept(c, s)
    ensures BankKept(c, Apply(c, s, a))
  {
    hide Change, Mass, Apply, Counted, Ordered, FetchedOnce;
    CountedKept(c, s, a);
    StepMass(c, FreshWeights(c), s, a);
    FreshChange(c, s, a);
    OnlyParseReads(c, s, a);
    if a.Parse? || a.Save? {
      TopWeighs(FreshWeights(c), s, a.t);
    }
  }

  /** A page of an earlier run whose stored links are all it has. */
  predicate Sure(c: Config, links: Links, u: string) {
    u in c.loaded && u in c.bank && forall v <- links(u) :: v in c.bank[u]
  }

  // ----- what can be reached in time is not left out

  /** 1 if the task will look this page up. */
  function Due(c: Config, url: string, t: Task): nat {
    if t.url == url && t.depth < c.depth then 1 else 0
  }

  function DueLinks(c: Config, url: string, urls: seq<string>, at: nat): nat {
    if url in urls && at < c.depth then 1 else 0
  }

  function DueFrame(c: Config, links: Links, url: string, f: Frame): nat {
    match f.phase
    case Begin => Due(c, url, f.task)
    case Fetching => DueLinks(c, url, links(f.task.url), f.task.depth + 1)
    case Saving(rest) => DueLinks(c, url, rest, f.task.depth + 1)
    case Loading => if Sure(c, links, f.task.url) then DueLinks(c, url, links(f.task.url), f.task.depth + 1) else 0
    case Submitting(rest) => DueLinks(c, url, rest, f.task.depth + 1)
    case Handing(child, rest) => Due(c, url, child) + DueLinks(c, url, rest, f.task.depth + 1)
    case Finished => 0
  }

  function DueMain(c: Config, url: string, m: Main): nat {
    match m
    case Seeding(urls) => DueLinks(c, url, urls, 0)
    case HandingSeed(seed, urls) => Due(c, url, seed) + DueLinks(c, url, urls, 0)
    case _ => 0
  }

  /** Counts what will still lead to this page below the depth limit. */
  function DueWeights(c: Config, links: Links, url: string): Weights {
    Weights((t: Task) => Due(c, url, t), (f: Frame) => DueFrame(c, links, url, f), (m: Main) => DueMain(c, url, m))
  }

  /** An earlier run recorded the page at no greater depth than one at which this run may come to it. */
  ghost predicate Passed(c: Config, links: Links, url: string) {
    url in c.loaded && exists k: nat :: k < c.depth && Reachable(c, links, url, k) && c.loaded[url] <= k
  }

  /** The page has been looked up, or something will lead to it, or an earlier run makes it be passed by. */
  ghost predicate Covered(c: Config, links: Links, s: State, looked: set<(string, nat)>, url: string) {
    || (exists d: nat :: (url, d) in looked)
    || Mass(DueWeights(c, links, url), s) > 0
    || Passed(c, links, url)
  }

  /** The page was left out of the links read, having been recorded at no greater depth. */
  predicate LeftOut(c: Config, links: Links, s: State, a: Action, url: string) {
    && a.Parse? && s.Running(a.t)
    && var task := s.Top(a.t).task;
       url in links(task.url) && task.depth + 1 < c.depth && url in s.visited && s.visited[url] <= task.depth
  }

  lemma NextLink(c: Config, url: string, urls: seq<string>, at: nat)
    requires urls != []
    ensures (if urls[0] == url && at < c.depth then 1 else 0) + DueLinks(c, url, urls[1..], at)
         >= DueLinks(c, url, urls, at)
  {
    assert urls == [urls[0]] + urls[1..];
  }

  lemma NothingDue(c: Config, url: string, at: nat)
    ensures DueLinks(c, url, [], at) == 0
  {
  }

  /** A step leads away from a page only by looking it up or by leaving it out. */
  lemma DueChange(c: Config, links: Links, s: State, a: Action, url: string)
    requires Enabled(c, s, a) && Undisturbed(c, links, s, a) && BankKept(c, s)
    ensures || Change(c, DueWeights(c, links, url), s, a) >= 0
            || (exists d: nat :: (url, d) in LookUp(s, a)) || LeftOut(c, links, s, a, url)
  {
    hide Mass, State.To, State.Push, State.Pop, State.Hand, DueMain;
    match a
    case Visit(t) =>
      var task := s.Top(t).task;
      if task.url == url {
        assert (url, task.depth) in LookUp(s, a);
      }
    case AddChild(t) => NextLink(c, url, s.Top(t).phase.rest, s.Top(t).task.depth + 1);
    case LinksDone(t) => NothingDue(c, url, s.Top(t).task.depth + 1);
    case _ =>
      if !OfTask(a) {
        OtherDueChange(c, links, s, a, url);
      }
  }

  lemma OtherDueChange(c: Config, links: Links, s: State, a: Action, url: string)
    requires Enabled(c, s, a) && !OfTask(a)
    ensures Change(c, DueWeights(c, links, url), s, a) >= 0
  {
    hide DueLinks;
    match a
    case Seed => NextLink(c, url, s.main.urls, 0);
    case SeedingDone => NothingDue(c, url, 0);
    case _ =>
  }

  /** Recorded depths are those of an earlier run or of a lookup. */
  ghost predicate Recorded(c: Config, s: State, looked: set<(string, nat)>) {
    && (forall l <- looked :: l.0 in s.visited)
    && (forall u <- s.visited :: if u in c.loaded then s.visited[u] == c.loaded[u] else (u, s.visited[u]) in looked)
  }

  lemma LeftOutCovered(c: Config, links: Links, s: State, a: Action, looked: set<(string, nat)>, url: string)
    requires Recorded(c, s, looked) && Mass(TraceWeights(c, links), s) == 0 && LeftOut(c, links, s, a, url)
    ensures (exists d: nat :: (url, d) in looked) || Passed(c, links, url)
  {
    hide Mass, Reachable;
    var task := s.Top(a.t).task;
    TopWeighs(TraceWeights(c, links), s, a.t);
    LinkReachable(c, links, task.url, task.depth, url);
    if url !in c.loaded {
      assert (url, s.visited[url]) in looked;
    }
  }

  lemma CoveredKept(c: Config, links: Links, s: State, a: Action, looked: set<(string, nat)>, url: string)
    requires Enabled(c, s, a) && Counted(s) && Ordered(c, s) && Undisturbed(c, links, s, a) && BankKept(c, s)
    requires Traced(c, links, s, looked) && Recorded(c, s, looked) && Covered(c, links, s, looked, url)
    ensures Covered(c, links, Apply(c, s, a), looked + LookUp(s, a), url)
  {
    hide Change, Mass, Apply, Counted, Ordered, LookUp, Enabled, Undisturbed, BankKept, ParsedTrue, Passed, LeftOut,
      Recorded;
    if d: nat :| (url, d) in looked {
      assert (url, d) in looked + LookUp(s, a);
    } else if !Passed(c, links, url) {
      CountedKept(c, s, a);
      StepMass(c, DueWeights(c, links, url), s, a);
      DueChange(c, links, s, a, url);
      if LeftOut(c, links, s, a, url) {
        LeftOutCovered(c, links, s, a, looked, url);
      } else if d: nat :| (url, d) in LookUp(s, a) {
        assert (url, d) in looked + LookUp(s, a);
      }
    }
  }

  /** A lookup of the page at this depth is one that hands its links on: the first one, or one above the
      depth that an earlier run recorded, if that run stored all links. */
  ghost predicate Gives(c: Config, links: Links, s: State, url: string, depth: nat) {
    if url in c.loaded then depth < c.loaded[url] && Sure(c, links, url)
    else url in s.visited && s.visited[url] == depth
  }

  ghost predicate Expanded(c: Config, links: Links, s: State, looked: set<(string, nat)>, url: string, depth: nat) {
    depth + 1 < c.depth && Gives(c, links, s, url, depth) ==> forall v <- links(url) :: Covered(c, links, s, looked, v)
  }

  /** Start pages and the links of all pages that hand theirs on are covered. */
  ghost predicate Complete(c: Config, links: Links, s: State, looked: set<(string, nat)>) {
    && Recorded(c, s, looked) && BankKept(c, s)
    && (c.depth > 0 ==> forall u <- c.startUrls :: Covered(c, links, s, looked, u))
    && (forall l <- looked :: Expanded(c, links, s, looked, l.0, l.1))
  }

  lemma VisitLeadsTo(c: Config, s: State, t: nat)
    requires Enabled(c, s, Visit(t))
    ensures var s', task := Apply(c, s, Visit(t)), s.Top(t).task;
            && s'.Running(t) && s'.Top(t) == Frame(task, NextPhase(s, Visit(t), t))
            && task.url in s'.visited && LookUp(s, Visit(t)) == {(task.url, task.depth)}
  {
  }

  lemma RecordedKept(c: Config, s: State, a: Action, looked: set<(string, nat)>)
    requires Enabled(c, s, a) && FetchedOnce(c, s) && Recorded(c, s, looked)
    ensures Recorded(c, Apply(c, s, a), looked + LookUp(s, a))
    ensures Extends(s.visited, Apply(c, s, a).visited)
  {
    hide Apply;
    OnlyVisitFetches(c, s, a);
    if a.Visit? {
      VisitLeadsTo(c, s, a.t);
    }
  }

  lemma ExpandedKept(c: Config, links: Links, s: State, a: Action, looked: set<(string, nat)>, url: string, depth: nat)
    requires Enabled(c, s, a) && Counted(s) && Ordered(c, s) && FetchedOnce(c, s) && Undisturbed(c, links, s, a)
    requires Traced(c, links, s, looked) && Complete(c, links, s, looked) && (url, depth) in looked
    ensures Expanded(c, links, Apply(c, s, a), looked + LookUp(s, a), url, depth)
  {
    hide Apply, Counted, Ordered, LookUp, Enabled, Undisturbed, Covered, BankKept, Traced, FetchedOnce;
    RecordedKept(c, s, a, looked);
    assert Expanded(c, links, s, looked, url, depth);
    var s' := Apply(c, s, a);
    if depth + 1 < c.depth && Gives(c, links, s', url, depth) {
      forall v <- links(url)
        ensures Covered(c, links, s', looked + LookUp(s, a), v)
      {
        CoveredKept(c, links, s, a, looked, v);
      }
    }
  }

  /** The links of a page now being fetched, or loaded from a store that has them all, are on their way. */
  lemma LinksDue(c: Config, links: Links, s: State, t: nat, looked: set<(string, nat)>, v: string)
    requires s.Running(t) && v in links(s.Top(t).task.url) && s.Top(t).task.depth + 1 < c.depth
    requires s.Top(t).phase.Fetching? || (s.Top(t).phase.Loading? && Sure(c, links, s.Top(t).task.url))
    ensures Covered(c, links, s, looked, v)
  {
    TopWeighs(DueWeights(c, links, v), s, t);
  }

  /** The page just looked up hands its links on, or did so when it was first looked up. */
  lemma VisitExpands(c: Config, links: Links, s: State, t: nat, looked: set<(string, nat)>)
    requires Enabled(c, s, Visit(t)) && Counted(s) && Ordered(c, s) && FetchedOnce(c, s)
    requires Undisturbed(c, links, s, Visit(t)) && Traced(c, links, s, looked) && Complete(c, links, s, looked)
    ensures var task := s.Top(t).task;
            Expanded(c, links, Apply(c, s, Visit(t)), looked + LookUp(s, Visit(t)), task.url, task.depth)
  {
    hide Apply, Covered, Counted, Ordered, BankKept, Traced, Sure;
    var s', looked', task := Apply(c, s, Visit(t)), looked + LookUp(s, Visit(t)), s.Top(t).task;
    VisitLeadsTo(c, s, t);
    RecordedKept(c, s, Visit(t), looked);
    if (task.url, task.depth) in looked {
      ExpandedKept(c, links, s, Visit(t), looked, task.url, task.depth);
    } else if task.depth + 1 < c.depth && Gives(c, links, s', task.url, task.depth) {
      forall v <- links(task.url)
        ensures Covered(c, links, s', looked', v)
      {
        LinksDue(c, links, s', t, looked', v);
      }
    }
  }

  lemma CompleteKept(c: Config, links: Links, s: State, a: Action, looked: set<(string, nat)>)
    requires Enabled(c, s, a) && Counted(s) && Ordered(c, s) && FetchedOnce(c, s)
    requires Undisturbed(c, links, s, a) && Traced(c, links, s, looked) && Complete(c, links, s, looked)
    ensures Complete(c, links, Apply(c, s, a), looked + LookUp(s, a))
  {
    hide Apply, Covered, Expanded, Counted, Ordered, Enabled, Undisturbed, FetchedOnce, Recorded, BankKept, Traced;
    var s', looked' := Apply(c, s, a), looked + LookUp(s, a);
    RecordedKept(c, s, a, looked);
    BankKeptStep(c, s, a);
    if c.depth > 0 {
      forall u <- c.startUrls
        ensures Covered(c, links, s', looked', u)
      {
        CoveredKept(c, links, s, a, looked, u);
      }
    }
    forall l <- looked'
      ensures Expanded(c, links, s', looked', l.0, l.1)
    {
      if l in looked {
        ExpandedKept(c, links, s, a, looked, l.0, l.1);
      } else {
        VisitLeadsTo(c, s, a.t);
        VisitExpands(c, links, s, a.t, looked);
      }
    }
  }

  // ----- whole runs

  lemma InitCovers(c: Config, links: Links)
    requires BankTrue(c, links)
    ensures Traced(c, links, Init(c), {}) && Complete(c, links, Init(c), {})
  {
    forall u <- c.startUrls
      ensures c.depth > 0 ==> Covered(c, links, Init(c), {}, u)
    {
      InitMass(c, DueWeights(c, links, u));
    }
    InitMass(c, TraceWeights(c, links));
    InitMass(c, FreshWeights(c));
  }

  lemma {:induction false} SmoothRun(c: Config, links: Links, steps: seq<Action>)
    requires After(c, steps).At? && Smooth(c, links, steps) && BankTrue(c, links)
    ensures Traced(c, links, After(c, steps).state, LookedUp(c, steps))
    ensures Complete(c, links, After(c, steps).state, LookedUp(c, steps))
  {
    hide Traced, Complete, Apply, Enabled, Undisturbed, LookUp, Counted, Ordered, FetchedOnce, Conserved, Bounded,
      WithinBudget, BankTrue;
    if steps == [] {
      InitCovers(c, links);
    } else {
      var before, a := steps[..|steps| - 1], steps[|steps| - 1];
      var s := After(c, before).state;
      SmoothRun(c, links, before);
      EveryRun(c, before);
      TracedKept(c, links, s, a, LookedUp(c, before));
      CompleteKept(c, links, s, a, LookedUp(c, before));
    }
  }

  lemma NothingDueAtEnd(c: Config, links: Links, s: State, url: string)
    requires s.queue == [] && (forall t: nat :: !s.Running(t)) && s.main.Returned?
    ensures Mass(DueWeights(c, links, url), s) == 0
  {
    QuietStacks(s);
    EmptyStacks(DueWeights(c, links, url).frame, s.stacks);
  }

  lemma ReturnedIsQuiet(c: Config, steps: seq<Action>)
    requires After(c, steps).At? && After(c, steps).state.main.Returned?
    ensures var s := After(c, steps).state;
            s.queue == [] && forall t: nat :: !s.Running(t)
  {
    hide Counted, Conserved, Bounded, WithinBudget, FetchedOnce;
    EveryRun(c, steps);
    QuietOnceWaited(c, steps);
  }

  /** The links of this page are handed on early enough, whenever it is looked up. For a page of this run that
      means: it was not first looked up at the last depth. */
  ghost predicate InTime(c: Config, links: Links, s: State, url: string) {
    if url in c.loaded then
      Sure(c, links, url) && forall k: nat :: k < c.depth && Reachable(c, links, url, k) ==>
                               k < c.loaded[url] && k + 1 < c.depth
    else url in s.visited ==> s.visited[url] + 1 < c.depth
  }

  /** A page looked up and in time has its links covered. */
  lemma InTimeExpands(c: Config, links: Links, s: State, looked: set<(string, nat)>, u: string, d: nat, v: string)
    requires Traced(c, links, s, looked) && Complete(c, links, s, looked) && InTime(c, links, s, u)
    requires (u, d) in looked && v in links(u)
    ensures Covered(c, links, s, looked, v)
  {
    hide Covered, Reachable, Mass, ParsedTrue, BankKept, Sure;
    assert d < c.depth && Reachable(c, links, u, d);
    var k := if u in c.loaded then d else s.visited[u];
    assert (u, k) in looked && Gives(c, links, s, u, k);
    assert Expanded(c, links, s, looked, u, k);
  }

  lemma CoveredAtEnd(c: Config, links: Links, s: State, looked: set<(string, nat)>, u: string) returns (d: nat)
    requires Covered(c, links, s, looked, u) && InTime(c, links, s, u)
    requires s.main.Returned? && s.queue == [] && forall t: nat :: !s.Running(t)
    ensures (u, d) in looked
  {
    hide Mass, DueWeights, Reachable;
    NothingDueAtEnd(c, links, s, u);
    assert !Passed(c, links, u);
    d :| (u, d) in looked;
  }

  /** Once Run has returned, the end of a path is covered if all pages before it were in time. */
  lemma {:induction false} PathCovered(c: Config, links: Links, s: State, looked: set<(string, nat)>, p: seq<string>)
    requires Traced(c, links, s, looked) && Complete(c, links, s, looked) && c.depth > 0
    requires s.main.Returned? && s.queue == [] && forall t: nat :: !s.Running(t)
    requires Path(c, links, p) && forall i :: 0 <= i < |p| - 1 ==> InTime(c, links, s, p[i])
    ensures Covered(c, links, s, looked, p[|p| - 1])
  {
    hide Covered, InTime, Traced, Expanded;
    var n := |p| - 1;
    if n > 0 {
      var q := p[..n];
      assert forall i :: 0 <= i < n ==> q[i] == p[i];
      PathCovered(c, links, s, looked, q);
      assert InTime(c, links, s, p[n - 1]);
      var d := CoveredAtEnd(c, links, s, looked, p[n - 1]);
      InTimeExpands(c, links, s, looked, p[n - 1], d, p[n]);
    }
  }

  lemma CoveredIsKnown(c: Config, links: Links, s: State, looked: set<(string, nat)>, u: string)
    requires Complete(c, links, s, looked) && Covered(c, links, s, looked, u) && FetchedOnce(c, s)
    requires s.main.Returned? && s.queue == [] && forall t: nat :: !s.Running(t)
    ensures u in s.visited
  {
    hide Mass, DueWeights, Reachable, Expanded, BankKept;
    NothingDueAtEnd(c, links, s, u);
  }

  /** When Run returns, the end of a path is known if no page before it was first looked up at the last depth. */
  lemma PathKnown(c: Config, links: Links, steps: seq<Action>, p: seq<string>)
    requires After(c, steps).At? && Smooth(c, links, steps) && BankTrue(c, links)
    requires After(c, steps).state.main.Returned? && c.depth > 0
    requires Path(c, links, p) && forall i :: 0 <= i < |p| - 1 ==> InTime(c, links, After(c, steps).state, p[i])
    ensures p[|p| - 1] in After(c, steps).state.visited
  {
    hide Covered, Traced, Complete, Mass, Apply, Enabled, InTime, FetchedOnce, Counted, Ordered, Conserved,
      Bounded, WithinBudget;
    var s := After(c, steps).state;
    SmoothRun(c, links, steps);
    EveryRun(c, steps);
    ReturnedIsQuiet(c, steps);
    PathCovered(c, links, s, LookedUp(c, steps), p);
    CoveredIsKnown(c, links, s, LookedUp(c, steps), p[|p| - 1]);
  }
}
