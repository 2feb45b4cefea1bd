/** When a crawl is exact. The depth at which a page is first looked up is that of some task for it; how
    large it can be is bounded by the simple paths to the page. */
module CrawlExactness {
  import opened CrawlMachine
  import opened CrawlCoverage

  // ----- simple paths

  predicate Simple(p: seq<string>) {
    forall i, j :: 0 <= i < j < |p| ==> p[i] != p[j]
  }

  predicate SimplePathTo(c: Config, links: Links, p: seq<string>, url: string) {
    PathTo(c, links, p, url) && Simple(p)
  }

  /** A path without its loops. */
  lemma {:induction false} Shorten(c: Config, links: Links, p: seq<string>, url: string) returns (q: seq<string>)
    requires PathTo(c, links, p, url)
    ensures SimplePathTo(c, links, q, url) && |q| <= |p|
    decreases |p|
  {
    if i, j :| 0 <= i < j < |p| && p[i] == p[j] {
      var r := p[..i] + p[j..];
      assert forall k :: 0 <= k < |r| ==> r[k] == if k < i then p[k] else p[k + j - i];
      q := Shorten(c, links, r, url);
    } else {
      q := p;
    }
  }

  /** All simple paths to a page, as long as they stay below the depth limit, have the same length. */
  ghost predicate Unambiguous(c: Config, links: Links) {
    forall u, p, q :: SimplePathTo(c, links, p, u) && SimplePathTo(c, links, q, u) && |p| <= c.depth && |q| <= c.depth
      ==> |p| == |q|
  }

  /** A simple path to the page has at least as many pages as the depth limit counts. */
  ghost predicate LongPath(c: Config, links: Links, url: string) {
    exists p :: SimplePathTo(c, links, p, url) && |p| >= c.depth
  }

  // ----- first lookups

  /** A task one level below a page recorded at this depth; `strict` is for runs without reloads. */
  predicate Fits(strict: bool, recorded: nat, depth: nat) {
    if strict then recorded == depth else recorded >= depth
  }

  /** A task for this page comes from Run or from a page recorded at no smaller depth than the one above. */
  ghost predicate Origin(c: Config, links: Links, visited: map<string, nat>, strict: bool, url: string, depth: nat) {
    if depth == 0 then url in c.startUrls
    else exists y <- visited :: url in links(y) && Fits(strict, visited[y], depth - 1)
  }

  ghost predicate FrameFirst(c: Config, links: Links, visited: map<string, nat>, strict: bool, f: Frame) {
    && Origin(c, links, visited, strict, f.task.url, f.task.depth) && HandsOn(links, f)
    && (f.phase.Begin? || f.phase.Finished? ||
        (f.task.url in visited && Fits(strict, visited[f.task.url], f.task.depth)))
    && (strict ==> !f.phase.Loading?)
  }

  ghost function FirstWeights(c: Config, links: Links, visited: map<string, nat>, strict: bool): Weights {
    Flags((t: Task) => Origin(c, links, visited, strict, t.url, t.depth),
          (f: Frame) => FrameFirst(c, links, visited, strict, f), (m: Main) => MainFine(c, m))
  }

  /** A simple path of recorded pages leads to the page, with at least as many links as its depth. */
  ghost predicate BackedBy(c: Config, links: Links, visited: map<string, nat>, strict: bool,
                           p: seq<string>, url: string)
    requires url in visited
  {
    && SimplePathTo(c, links, p, url) && (forall i :: 0 <= i < |p| ==> p[i] in visited)
    && if strict then |p| == visited[url] + 1 && forall i :: 0 <= i < |p| ==> visited[p[i]] == i
       else |p| >= visited[url] + 1
  }

  ghost predicate AllBacked(c: Config, links: Links, visited: map<string, nat>, strict: bool) {
    forall u <- visited :: exists p :: BackedBy(c, links, visited, strict, p, u)
  }

  ghost predicate First(c: Config, links: Links, strict: bool, s: State) {
    Mass(FirstWeights(c, links, s.visited, strict), s) == 0 && AllBacked(c, links, s.visited, strict)
  }

  // ----- more recorded pages, fewer flags

  lemma {:induction false} SumGrows<T(!new)>(w: T -> nat, w': T -> nat, xs: seq<T>)
    requires forall x :: w(x) <= w'(x)
    ensures Sum(w, xs) <= Sum(w', xs)
  {
    if xs != [] {
      SumGrows(w, w', xs[..|xs| - 1]);
    }
  }

  lemma {:induction false} StacksSumGrows(w: Frame -> nat, w': Frame -> nat, stacks: seq<seq<Frame>>)
    requires forall f :: w(f) <= w'(f)
    ensures StacksSum(w, stacks) <= StacksSum(w', stacks)
  {
    if stacks != [] {
      StacksSumGrows(w, w', stacks[..|stacks| - 1]);
      SumGrows(w, w', stacks[|stacks| - 1]);
    }
  }

  lemma OriginStays(c: Config, links: Links, visited: map<string, nat>, more: map<string, nat>, strict: bool,
                    url: string, depth: nat)
    requires Extends(visited, more) && Origin(c, links, visited, strict, url, depth)
    ensures Origin(c, links, more, strict, url, depth)
  {
    if depth > 0 {
      var y :| y in visited && url in links(y) && Fits(strict, visited[y], depth - 1);
      assert y in more;
    }
  }

  lemma FrameFirstStays(c: Config, links: Links, visited: map<string, nat>, more: map<string, nat>, strict: bool,
                        f: Frame)
    requires Extends(visited, more) && FrameFirst(c, links, visited, strict, f)
    ensures FrameFirst(c, links, more, strict, f)
  {
    hide Origin;
    OriginStays(c, links, visited, more, strict, f.task.url, f.task.depth);
  }

  lemma FlagsStayDown(c: Config, links: Links, visited: map<string, nat>, more: map<string, nat>, strict: bool,
                      s: State)
    requires Extends(visited, more) && Mass(FirstWeights(c, links, visited, strict), s) == 0
    ensures Mass(FirstWeights(c, links, more, strict), s) == 0
  {
    hide Origin, FrameFirst, Extends;
    var w, w' := FirstWeights(c, links, more, strict), FirstWeights(c, links, visited, strict);
    forall t
      ensures w.task(t) <= w'.task(t)
    {
      if Origin(c, links, visited, strict, t.url, t.depth) {
        OriginStays(c, links, visited, more, strict, t.url, t.depth);
      }
    }
    forall f
      ensures w.frame(f) <= w'.frame(f)
    {
      if FrameFirst(c, links, visited, strict, f) {
        FrameFirstStays(c, links, visited, more, strict, f);
      }
    }
    SumGrows(w.task, w'.task, s.queue);
    StacksSumGrows(w.frame, w'.frame, s.stacks);
  }

  // ----- every step keeps the bound

  lemma ChildOrigin(c: Config, links: Links, visited: map<string, nat>, strict: bool, f: Frame, url: string)
    requires FrameFirst(c, links, visited, strict, f) && !f.phase.Begin? && !f.phase.Finished?
    requires url in links(f.task.url)
    ensures Origin(c, links, visited, strict, url, f.task.depth + 1)
  {
  }

  /** `visited` has the recorded pages after the step, and without reloads no page was found deeper. */
  ghost predicate RecordsAfter(s: State, a: Action, visited: map<string, nat>, strict: bool) {
    && Extends(s.visited, visited)
    && (a.Visit? && s.Running(a.t) ==>
          var task := s.Top(a.t).task;
          if task.url in s.visited then strict ==> s.visited[task.url] <= task.depth
          else task.url in visited && visited[task.url] == task.depth)
  }

  /** What a step does to the flag of the top frame. */
  lemma NextFirst(c: Config, links: Links, s: State, a: Action, visited: map<string, nat>, strict: bool)
    requires Enabled(c, s, a) && Undisturbed(c, links, s, a) && ParsedTrue(links, s) && (OfTask(a) || a.HandChild?)
    requires RecordsAfter(s, a, visited, strict) && FrameFirst(c, links, visited, strict, s.Top(a.t))
    ensures FrameFirst(c, links, visited, strict, s.Top(a.t).(phase := NextPhase(s, a, a.t)))
  {
    hide Origin, HandsOn, Undisturbed;
    NextHandsOn(c, links, s, a);
  }

  lemma FirstChange(c: Config, links: Links, s: State, a: Action, visited: map<string, nat>, strict: bool)
    requires Enabled(c, s, a) && Undisturbed(c, links, s, a) && ParsedTrue(links, s)
    requires RecordsAfter(s, a, visited, strict) && Mass(FirstWeights(c, links, visited, strict), s) == 0
    ensures Change(c, FirstWeights(c, links, visited, strict), s, a) <= 0
  {
    hide Mass, Undisturbed, FrameFirst, MainFine, NextPhase, Origin, RecordsAfter;
    var w := FirstWeights(c, links, visited, strict);
    if OfTask(a) {
      TopWeighs(w, s, a.t);
      NextFirst(c, links, s, a, visited, strict);
    } else {
      OtherFirstChange(c, links, s, a, visited, strict);
    }
  }

  lemma BeginFirst(c: Config, links: Links, visited: map<string, nat>, strict: bool, t: Task)
    requires Origin(c, links, visited, strict, t.url, t.depth)
    ensures FrameFirst(c, links, visited, strict, Frame(t, Begin))
  {
  }

  lemma OtherFirstChange(c: Config, links: Links, s: State, a: Action, visited: map<string, nat>, strict: bool)
    requires Enabled(c, s, a) && Undisturbed(c, links, s, a) && ParsedTrue(links, s) && !OfTask(a)
    requires RecordsAfter(s, a, visited, strict) && Mass(FirstWeights(c, links, visited, strict), s) == 0
    ensures Change(c, FirstWeights(c, links, visited, strict), s, a) <= 0
  {
    hide Mass, Undisturbed, HandsOn, FrameFirst, Origin, RecordsAfter;
    var w := FirstWeights(c, links, visited, strict);
    MainWeighs(w, s);
    match a
    case Receive(_) =>
      FirstWeighs(w, s);
      BeginFirst(c, links, visited, strict, s.queue[0]);
    case Done(_) => TopWeighs(w, s, a.t);
    case HandChild(_) =>
      TopWeighs(w, s, a.t);
      NextFirst(c, links, s, a, visited, strict);
      HandedOrigin(c, links, visited, strict, s.Top(a.t));
      BeginFirst(c, links, visited, strict, s.Top(a.t).phase.child);
    case HandSeed =>
      SeedOrigin(c, links, visited, strict, s.main);
      BeginFirst(c, links, visited, strict, s.main.seed);
    case Seed => SeedFine(c, s);
    case _ =>
  }

  lemma HandedOrigin(c: Config, links: Links, visited: map<string, nat>, strict: bool, f: Frame)
    requires FrameFirst(c, links, visited, strict, f) && f.phase.Handing?
    ensures Origin(c, links, visited, strict, f.phase.child.url, f.phase.child.depth)
  {
    ChildOrigin(c, links, visited, strict, f, f.phase.child.url);
  }

  lemma SeedOrigin(c: Config, links: Links, visited: map<string, nat>, strict: bool, m: Main)
    requires m.HandingSeed? && MainFine(c, m)
    ensures Origin(c, links, visited, strict, m.seed.url, m.seed.depth)
  {
  }

  lemma StartPath(c: Config, links: Links, url: string)
    requires url in c.startUrls
    ensures SimplePathTo(c, links, [url], url)
  {
  }

  lemma OneMorePage(c: Config, links: Links, q: seq<string>, y: string, url: string)
    requires SimplePathTo(c, links, q, y) && url in links(y) && url !in q
    ensures SimplePathTo(c, links, q + [url], url)
  {
    var p := q + [url];
    assert forall i :: 0 <= i < |q| ==> p[i] == q[i] && q[i] in q;
  }

  /** The page above, with its simple path, gives a simple path to a page not on it. */
  lemma OriginPath(c: Config, links: Links, visited: map<string, nat>, strict: bool, url: string, depth: nat)
    returns (p: seq<string>)
    requires Origin(c, links, visited, strict, url, depth) && AllBacked(c, links, visited, strict)
    requires url in visited ==> strict && visited[url] > depth
    ensures SimplePathTo(c, links, p, url) && |p| >= depth + 1 && (strict ==> |p| == depth + 1)
    ensures forall i :: 0 <= i < |p| - 1 ==> p[i] in visited && (strict ==> visited[p[i]] == i)
  {
    hide SimplePathTo;
    if depth == 0 {
      p := [url];
      StartPath(c, links, url);
    } else {
      var y :| y in visited && url in links(y) && Fits(strict, visited[y], depth - 1);
      var q :| BackedBy(c, links, visited, strict, q, y);
      p := q + [url];
      assert forall i :: 0 <= i < |q| ==> q[i] != url;
      OneMorePage(c, links, q, y, url);
    }
  }

  lemma DeeperIsAmbiguous(c: Config, links: Links, visited: map<string, nat>, url: string, depth: nat)
    requires Origin(c, links, visited, true, url, depth) && AllBacked(c, links, visited, true)
    requires url in visited && depth < visited[url] < c.depth
    ensures !Unambiguous(c, links)
  {
    hide SimplePathTo, Origin;
    var p := OriginPath(c, links, visited, true, url, depth);
    var q :| BackedBy(c, links, visited, true, q, url);
  }

  /** With unambiguous paths no page is found recorded deeper than the task that looks it up. */
  lemma NeverDeeper(c: Config, links: Links, visited: map<string, nat>, url: string, depth: nat)
    requires Origin(c, links, visited, true, url, depth) && AllBacked(c, links, visited, true)
    requires Unambiguous(c, links) && url in visited && visited[url] < c.depth
    ensures visited[url] <= depth
  {
    hide Origin, AllBacked, Unambiguous;
    if visited[url] > depth {
      DeeperIsAmbiguous(c, links, visited, url, depth);
    }
  }

  lemma BackedStays(c: Config, links: Links, visited: map<string, nat>, more: map<string, nat>, strict: bool,
                    p: seq<string>, url: string)
    requires Extends(visited, more) && url in visited && BackedBy(c, links, visited, strict, p, url)
    ensures BackedBy(c, links, more, strict, p, url)
  {
    hide SimplePathTo;
  }

  lemma NewBacked(c: Config, links: Links, visited: map<string, nat>, strict: bool, url: string, depth: nat)
    requires Origin(c, links, visited, strict, url, depth) && AllBacked(c, links, visited, strict) && url !in visited
    ensures AllBacked(c, links, visited[url := depth], strict)
  {
    hide SimplePathTo, Origin;
    var more := visited[url := depth];
    forall u <- more
      ensures exists p :: BackedBy(c, links, more, strict, p, u)
    {
      if u == url {
        var p := OriginPath(c, links, visited, strict, url, depth);
        LastOf(c, links, p, url);
        assert BackedBy(c, links, more, strict, p, u);
      } else {
        var p :| BackedBy(c, links, visited, strict, p, u);
        BackedStays(c, links, visited, more, strict, p, u);
      }
    }
  }

  lemma LastOf(c: Config, links: Links, p: seq<string>, url: string)
    requires SimplePathTo(c, links, p, url)
    ensures p != [] && p[|p| - 1] == url
  {
  }

  lemma FirstKept(c: Config, links: Links, s: State, a: Action, strict: bool)
    requires Enabled(c, s, a) && Counted(s) && Ordered(c, s) && Undisturbed(c, links, s, a) && ParsedTrue(links, s)
    requires First(c, links, strict, s) && forall u <- s.visited :: s.visited[u] < c.depth
    requires strict ==> Unambiguous(c, links)
    ensures First(c, links, strict, Apply(c, s, a))
  {
    hide Change, Mass, Apply, Counted, Ordered, ParsedTrue, Undisturbed, Origin, BackedBy, AllBacked, Unambiguous;
    var s' := Apply(c, s, a);
    if strict && a.Visit? && s.Top(a.t).task.url in s.visited {
      TopWeighs(FirstWeights(c, links, s.visited, true), s, a.t);
      NeverDeeper(c, links, s.visited, s.Top(a.t).task.url, s.Top(a.t).task.depth);
    }
    CountedKept(c, s, a);
    VisitedGrows(c, s, a);
    OnlyVisitFetches(c, s, a);
    FlagsStayDown(c, links, s.visited, s'.visited, strict, s);
    StepMass(c, FirstWeights(c, links, s'.visited, strict), s, a);
    FirstChange(c, links, s, a, s'.visited, strict);
    if s'.visited != s.visited {
      TopWeighs(FirstWeights(c, links, s.visited, strict), s, a.t);
      NewBacked(c, links, s.visited, strict, s.Top(a.t).task.url, s.Top(a.t).task.depth);
    }
  }

  // ----- whole runs

  lemma InitFirst(c: Config, links: Links, strict: bool)
    requires c.loaded == map[]
    ensures First(c, links, strict, Init(c))
  {
    InitMass(c, FirstWeights(c, links, map[], strict));
  }

  lemma RecordedBelow(c: Config, links: Links, s: State, looked: set<(string, nat)>)
    requires Traced(c, links, s, looked) && Complete(c, links, s, looked) && c.loaded == map[]
    ensures forall u <- s.visited :: s.visited[u] < c.depth && Reachable(c, links, u, s.visited[u])
  {
    hide Mass, ParsedTrue, BankKept, Covered, Reachable;
    forall u <- s.visited
      ensures s.visited[u] < c.depth && Reachable(c, links, u, s.visited[u])
    {
      assert (u, s.visited[u]) in looked;
    }
  }

  /** In every undisturbed run from nothing, every page has a simple path with at least as many links as
      its recorded depth; with unambiguous paths exactly as many, and no page is ever loaded again. */
  lemma {:induction false} FirstDepths(c: Config, links: Links, steps: seq<Action>, strict: bool)
    requires After(c, steps).At? && Smooth(c, links, steps) && BankTrue(c, links) && c.loaded == map[]
    requires strict ==> Unambiguous(c, links)
    ensures First(c, links, strict, After(c, steps).state)
  {
    hide First, Traced, Complete, Apply, Enabled, Undisturbed, Counted, Ordered, FetchedOnce, Conserved, Bounded,
      WithinBudget, BankTrue, Unambiguous;
    if steps == [] {
      InitFirst(c, links, strict);
    } else {
      var before, a := steps[..|steps| - 1], steps[|steps| - 1];
      var s := After(c, before).state;
      FirstDepths(c, links, before, strict);
      EveryRun(c, before);
      SmoothRun(c, links, before);
      RecordedBelow(c, links, s, LookedUp(c, before));
      TracedParsed(c, links, s, LookedUp(c, before));
      FirstKept(c, links, s, a, strict);
    }
  }

  lemma TracedParsed(c: Config, links: Links, s: State, looked: set<(string, nat)>)
    requires Traced(c, links, s, looked)
    ensures ParsedTrue(links, s)
  {
  }

  /** With unambiguous paths no visit ever finds its page recorded deeper, so nothing is loaded again. */
  lemma NothingReloaded(c: Config, links: Links, steps: seq<Action>, t: nat)
    requires After(c, steps).At? && Smooth(c, links, steps) && BankTrue(c, links) && c.loaded == map[]
    requires Unambiguous(c, links) && After(c, steps).state.Running(t)
    ensures !After(c, steps).state.Top(t).phase.Loading?
  {
    hide Mass, Origin, HandsOn, Unambiguous, BankTrue;
    var s := After(c, steps).state;
    FirstDepths(c, links, steps, true);
    TopWeighs(FirstWeights(c, links, s.visited, true), s, t);
  }

  /** A page known at the end of an undisturbed run from nothing has been fetched. */
  lemma KnownIsFetched(c: Config, links: Links, steps: seq<Action>, url: string)
    requires After(c, steps).At? && Smooth(c, links, steps) && BankTrue(c, links) && c.loaded == map[]
    ensures url in After(c, steps).state.fetched <==> url in After(c, steps).state.visited
    ensures url in After(c, steps).state.fetched ==>
              exists k: nat :: k < c.depth && Reachable(c, links, url, k)
  {
    hide Traced, Complete, Mass, Apply, Enabled, Counted, Ordered, Conserved, Bounded, WithinBudget, Reachable,
      BankTrue;
    var s := After(c, steps).state;
    EveryRun(c, steps);
    SmoothRun(c, links, steps);
    RecordedBelow(c, links, s, LookedUp(c, steps));
    if url in s.fetched {
      assert Reachable(c, links, url, s.visited[url]);
    }
  }

  /** No page that lies higher can first be looked up at the last depth: none of them is at the end of a path
      of that many links and also of a simple path at least so long. */
  ghost predicate Shallow(c: Config, links: Links) {
    forall u, k: nat :: k + 1 < c.depth && Reachable(c, links, u, k) && Reachable(c, links, u, c.depth - 1)
      ==> !LongPath(c, links, u)
  }

  lemma PrefixReachable(c: Config, links: Links, p: seq<string>, i: nat)
    requires Path(c, links, p) && i < |p|
    ensures Reachable(c, links, p[i], i)
  {
    assert PathTo(c, links, p[..i + 1], p[i]);
  }

  lemma LastDepthIsLong(c: Config, links: Links, visited: map<string, nat>, u: string)
    requires AllBacked(c, links, visited, false) && u in visited && visited[u] + 1 == c.depth
    ensures LongPath(c, links, u)
  {
    hide SimplePathTo;
    var q :| BackedBy(c, links, visited, false, q, u);
  }

  lemma ShallowInTime(c: Config, links: Links, steps: seq<Action>, p: seq<string>, i: nat)
    requires After(c, steps).At? && Smooth(c, links, steps) && BankTrue(c, links) && c.loaded == map[]
    requires Shallow(c, links) && Path(c, links, p) && |p| <= c.depth && i < |p| - 1
    ensures InTime(c, links, After(c, steps).state, p[i])
  {
    hide Mass, Traced, Complete, Reachable, Path, BankTrue, AllBacked, LongPath, After, Smooth;
    var s, u := After(c, steps).state, p[i];
    FirstDepths(c, links, steps, false);
    SmoothRun(c, links, steps);
    RecordedBelow(c, links, s, LookedUp(c, steps));
    PrefixReachable(c, links, p, i);
    if u in s.visited && s.visited[u] + 1 == c.depth {
      LastDepthIsLong(c, links, s.visited, u);
    }
  }

  /** A crawl from nothing, cut short by nothing from outside, has fetched, when Run returns, exactly the pages
      that fewer links than the depth limit lead to, in every interleaving, if no page that lies higher can first
      be looked up at the last depth. */
  lemma CrawlIsExact(c: Config, links: Links, steps: seq<Action>, url: string)
    requires After(c, steps).At? && Smooth(c, links, steps) && After(c, steps).state.main.Returned?
    requires BankTrue(c, links) && c.loaded == map[] && Shallow(c, links)
    ensures url in After(c, steps).state.fetched <==>
            exists k: nat :: k < c.depth && Reachable(c, links, url, k)
  {
    hide Shallow, InTime, BankTrue, After, Smooth;
    KnownIsFetched(c, links, steps, url);
    if k: nat :| k < c.depth && Reachable(c, links, url, k) {
      var p :| PathTo(c, links, p, url) && |p| == k + 1;
      forall i | 0 <= i < |p| - 1
        ensures InTime(c, links, After(c, steps).state, p[i])
      {
        ShallowInTime(c, links, steps, p, i);
      }
      PathKnown(c, links, steps, p);
    }
  }

  lemma UnambiguousInTime(c: Config, links: Links, steps: seq<Action>, p: seq<string>, i: nat)
    requires After(c, steps).At? && Smooth(c, links, steps) && BankTrue(c, links) && c.loaded == map[]
    requires Unambiguous(c, links) && Path(c, links, p) && |p| <= c.depth && i < |p| - 1
    ensures InTime(c, links, After(c, steps).state, p[i])
  {
    hide Mass, Traced, Complete, SimplePathTo, Path, PathTo, BankTrue;
    var s, u := After(c, steps).state, p[i];
    FirstDepths(c, links, steps, true);
    SmoothRun(c, links, steps);
    RecordedBelow(c, links, s, LookedUp(c, steps));
    PrefixReachable(c, links, p, i);
    var r :| PathTo(c, links, r, u) && |r| == i + 1;
    var q := Shorten(c, links, r, u);
    if u in s.visited {
      var b :| BackedBy(c, links, s.visited, true, b, u);
      assert |b| == |q|;
    }
  }

  /** With unambiguous paths the crawl is exact in every interleaving. */
  lemma UnambiguousIsExact(c: Config, links: Links, steps: seq<Action>, url: string)
    requires After(c, steps).At? && Smooth(c, links, steps) && After(c, steps).state.main.Returned?
    requires BankTrue(c, links) && c.loaded == map[] && Unambiguous(c, links)
    ensures url in After(c, steps).state.fetched <==>
            exists k: nat :: k < c.depth && Reachable(c, links, url, k)
  {
    hide Unambiguous, InTime, BankTrue, After, Smooth;
    KnownIsFetched(c, links, steps, url);
    if k: nat :| k < c.depth && Reachable(c, links, url, k) {
      var p :| PathTo(c, links, p, url) && |p| == k + 1;
      forall i | 0 <= i < |p| - 1
        ensures InTime(c, links, After(c, steps).state, p[i])
      {
        UnambiguousInTime(c, links, steps, p, i);
      }
      PathKnown(c, links, steps, p);
    }
  }

  /** The links of this page are handed on early enough in every run: a page of an earlier run is recorded below
      all depths at which it may be looked up and has all its links stored, any other is at the end of no path of
      exactly as many links as lead to the last depth; and no page before the last depth is at the limit. */
  ghost predicate AlwaysInTime(c: Config, links: Links, url: string) {
    if url in c.loaded then
      Sure(c, links, url) && forall k: nat :: k < c.depth && Reachable(c, links, url, k) ==>
                               k < c.loaded[url] && k + 1 < c.depth
    else c.depth > 0 && !Reachable(c, links, url, c.depth - 1)
  }

  /** Also with pages known from an earlier run: in every interleaving, a page is known when Run returns if it is
      at the end of a path, however long, on which the links of every page before it are handed on early enough. */
  lemma ReachablePagesKnown(c: Config, links: Links, steps: seq<Action>, p: seq<string>)
    requires After(c, steps).At? && Smooth(c, links, steps) && After(c, steps).state.main.Returned?
    requires BankTrue(c, links) && c.depth > 0 && Path(c, links, p)
    requires forall i :: 0 <= i < |p| - 1 ==> AlwaysInTime(c, links, p[i])
    ensures p[|p| - 1] in After(c, steps).state.visited
  {
    hide Mass, Traced, Reachable, ParsedTrue, BankKept, Covered, Expanded, After, Smooth, BankTrue, Sure;
    var s := After(c, steps).state;
    SmoothRun(c, links, steps);
    forall i | 0 <= i < |p| - 1
      ensures InTime(c, links, s, p[i])
    {
      RecordedInTime(c, links, s, LookedUp(c, steps), p[i]);
    }
    PathKnown(c, links, steps, p);
  }

  lemma RecordedInTime(c: Config, links: Links, s: State, looked: set<(string, nat)>, u: string)
    requires Traced(c, links, s, looked) && Complete(c, links, s, looked) && AlwaysInTime(c, links, u)
    ensures InTime(c, links, s, u)
  {
    hide Mass, Reachable, ParsedTrue, BankKept, Covered, Expanded, Sure;
    if u !in c.loaded && u in s.visited {
      assert (u, s.visited[u]) in looked;
    }
  }

  // ----- undisturbed runs can always go on

  predicate Short(c: Config, found: map<string, seq<string>>) {
    forall u <- found :: |found[u]| <= c.maxLinks
  }

  lemma ListsStayShort(c: Config, s: State, a: Action)
    requires Enabled(c, s, a) && Bounded(c, s) && Short(c, s.cached) && Short(c, s.stored)
    ensures Short(c, Apply(c, s, a).cached) && Short(c, Apply(c, s, a).stored)
  {
    hide Apply, Bounded;
    OnlyParseReads(c, s, a);
    if a.Save? {
      TopOk(c, s, a.t);
    }
  }

  lemma {:induction false} ListsAreShort(c: Config, steps: seq<Action>)
    requires After(c, steps).At? && Short(c, c.bank)
    ensures Short(c, After(c, steps).state.cached) && Short(c, After(c, steps).state.stored)
  {
    hide Apply, Enabled, Bounded, Counted, Ordered, Conserved, WithinBudget, FetchedOnce, Short;
    if steps == [] {
      NothingCached(c);
    } else {
      var before, a := steps[..|steps| - 1], steps[|steps| - 1];
      ListsAreShort(c, before);
      EveryRun(c, before);
      ListsStayShort(c, After(c, before).state, a);
    }
  }

  lemma NothingCached(c: Config)
    ensures Short(c, Init(c).cached) && Init(c).stored == c.bank
  {
  }

  /** An undisturbed crawl can always go on until Run has returned. */
  lemma SmoothProgress(c: Config, links: Links, steps: seq<Action>) returns (a: Action)
    requires c.Valid() && After(c, steps).At? && !After(c, steps).state.main.Returned?
    requires Short(c, c.bank) && forall u :: |links(u)| <= c.maxLinks
    ensures Enabled(c, After(c, steps).state, a) && Undisturbed(c, links, After(c, steps).state, a)
  {
    hide Counted, Ordered, Conserved, WithinBudget, FetchedOnce, Bounded, Apply;
    var s := After(c, steps).state;
    EveryRun(c, steps);
    ListsAreShort(c, steps);
    if t: nat :| s.Running(t) {
      a := NextOf(c, links, s, t);
    } else {
      a := Progress(c, s);
    }
  }

  lemma NextOf(c: Config, links: Links, s: State, t: nat) returns (a: Action)
    requires s.Running(t) && Short(c, s.cached) && Short(c, s.stored) && forall u :: |links(u)| <= c.maxLinks
    ensures Enabled(c, s, a) && Undisturbed(c, links, s, a)
  {
    var f := s.Top(t);
    match f.phase
    case Begin => a := if f.task.depth < c.depth then Visit(t) else Leave(t);
    case Fetching => a := Parse(t, links(f.task.url));
    case Saving(_) => a := Save(t);
    case Loading =>
      a := if f.task.url in s.cached then Deliver(t, s.cached[f.task.url])
           else if f.task.url in s.stored then Deliver(t, s.stored[f.task.url])
           else Missing(t);
    case Submitting(rest) => a := if rest == [] then LinksDone(t) else AddChild(t);
    case Handing(_, _) => a := HandChild(t);
    case Finished => a := Done(t);
  }
}
