/** Why a crawl need not be exact: runs in which a page is first looked up deeper than it lies and looked up
    again before its links can be found. Every task gets a worker of its own that waits as long as needed. */
module CrawlRaces {
  import opened CrawlMachine
  import opened CrawlCoverage
  import opened CrawlExactness

  // ----- runs with nothing left to chance

  /** The links read at one moment: those recorded at no greater depth are left out. */
  function Kept(visited: map<string, nat>, depth: nat, links: seq<string>): (read: seq<string>)
    ensures |read| <= |links|
    ensures forall v :: v in read <==> v in links && !(v in visited && visited[v] <= depth)
  {
    if links == [] then []
    else
      var v, rest := links[|links| - 1], Kept(visited, depth, links[..|links| - 1]);
      assert links == links[..|links| - 1] + [v];
      if v in visited && visited[v] <= depth then rest else rest + [v]
  }

  /** Undisturbed, with every page read at one moment and nothing evicted from the cache. */
  predicate Sharp(c: Config, links: Links, s: State, a: Action)
    requires Enabled(c, s, a)
  {
    && (a.Leave? ==> s.Top(a.t).task.depth >= c.depth)
    && !a.Fail?
    && (a.Parse? ==> a.links == Kept(s.visited, s.Top(a.t).task.depth, links(s.Top(a.t).task.url)))
    && (a.Missing? ==> s.Top(a.t).task.url !in s.cached)
  }

  lemma SharpIsUndisturbed(c: Config, links: Links, s: State, a: Action)
    requires Enabled(c, s, a) && Sharp(c, links, s, a)
    ensures Undisturbed(c, links, s, a)
  {
  }

  /** A run of sharp steps has led to this state. */
  predicate Now(c: Config, links: Links, steps: seq<Action>, s: State) {
    After(c, steps) == At(s) && AllSharp(c, links, steps)
  }

  predicate AllSharp(c: Config, links: Links, steps: seq<Action>)
    requires After(c, steps).At?
  {
    steps == [] ||
    var before, a := steps[..|steps| - 1], steps[|steps| - 1];
    AllSharp(c, links, before) && Sharp(c, links, After(c, before).state, a)
  }

  lemma {:induction false} SharpIsSmooth(c: Config, links: Links, steps: seq<Action>)
    requires After(c, steps).At? && AllSharp(c, links, steps)
    ensures Smooth(c, links, steps)
  {
    hide Sharp, Undisturbed, Apply, Enabled;
    if steps != [] {
      var before, a := steps[..|steps| - 1], steps[|steps| - 1];
      SharpIsSmooth(c, links, before);
      SharpIsUndisturbed(c, links, After(c, before).state, a);
    }
  }

  lemma OneStep(c: Config, links: Links, steps: seq<Action>, s: State, a: Action)
    requires Now(c, links, steps, s) && Enabled(c, s, a) && Sharp(c, links, s, a)
    ensures Now(c, links, steps + [a], Apply(c, s, a))
  {
    hide Sharp, Apply, Enabled;
    assert (steps + [a])[..|steps|] == steps;
  }

  // ----- states in which every task is held by a worker of its own

  /** Nothing is queued or nested, Run's thread is free, and the workers from number `n` on are idle. */
  ghost predicate Calm(c: Config, s: State, n: nat) {
    && s.queue == [] && !s.closed && !s.quit
    && |s.stacks| == |s.alive| == c.workers + 1 && 1 <= n <= c.workers + 1
    && s.stacks[0] == [] && (forall t :: 0 <= t < |s.alive| ==> s.alive[t])
    && (forall t :: 0 <= t < |s.stacks| ==> |s.stacks[t]| <= 1)
    && (forall t :: n <= t < |s.stacks| ==> s.stacks[t] == [])
  }

  /** Thread `t` runs one task, in this phase. */
  predicate Only(s: State, t: nat, f: Frame) {
    t < |s.stacks| && s.stacks[t] == [f]
  }

  predicate HeldAt(s: State, t: nat, url: string, depth: nat) {
    t < |s.stacks| && |s.stacks[t]| == 1 && s.stacks[t][0].phase.Begin?
    && s.stacks[t][0].task.url == url && s.stacks[t][0].task.depth == depth
  }

  /** Some worker holds a task for this page at this depth that it has not begun. */
  ghost predicate Held(s: State, url: string, depth: nat) {
    exists t: nat :: HeldAt(s, t, url, depth)
  }

  predicate SameRecords(s: State, s': State) {
    s'.visited == s.visited && s'.cached == s.cached && s'.stored == s.stored && s'.fetched == s.fetched
    && s'.main == s.main
  }

  /** All threads but `t` and those from `n` to `n'` are as before. */
  predicate SameStacks(s: State, s': State, t: nat, n: nat, n': nat) {
    |s'.stacks| == |s.stacks| &&
    forall i: nat :: i < |s.stacks| && i != t && !(n <= i < n') ==> s'.stacks[i] == s.stacks[i]
  }

  lemma Replaced(c: Config, s: State, t: nat, f: Frame, p: Phase)
    requires Only(s, t, f)
    ensures s.Running(t) && s.Top(t) == f && s.To(t, p) == s.(stacks := s.stacks[t := [f.(phase := p)]])
  {
    assert [f][..0] == [] && [] + [f.(phase := p)] == [f.(phase := p)];
    assert s.To(t, p).stacks == s.stacks[t := [f.(phase := p)]];
  }

  lemma AddsChild(c: Config, s: State, t: nat, task: Task, rest: seq<string>)
    requires Only(s, t, Frame(task, Submitting(rest))) && rest != []
    ensures var child := Task(s.submitted, rest[0], task.depth + 1);
            && Enabled(c, s, AddChild(t))
            && Apply(c, s, AddChild(t)) ==
               s.(stacks := s.stacks[t := [Frame(task, Handing(child, rest[1..]))]],
                  wg := s.wg + 1, submitted := s.submitted + 1)
  {
    hide State.To;
    Replaced(c, s, t, Frame(task, Submitting(rest)), Handing(Task(s.submitted, rest[0], task.depth + 1), rest[1..]));
  }

  lemma HandsChild(c: Config, s: State, t: nat, task: Task, child: Task, rest: seq<string>)
    requires Only(s, t, Frame(task, Handing(child, rest))) && !s.closed && s.queue == [] && c.capacity >= 1
    ensures Enabled(c, s, HandChild(t))
    ensures Apply(c, s, HandChild(t)) ==
            s.(stacks := s.stacks[t := [Frame(task, Submitting(rest))]], queue := [child])
  {
    hide State.To;
    Replaced(c, s, t, Frame(task, Handing(child, rest)), Submitting(rest));
  }

  lemma Receives(c: Config, s: State, n: nat, child: Task)
    requires 0 < n < |s.stacks| == |s.alive| && s.alive[n] && s.stacks[n] == [] && s.queue == [child]
    ensures Enabled(c, s, Receive(n))
    ensures Apply(c, s, Receive(n)) == s.(stacks := s.stacks[n := [Frame(child, Begin)]], queue := [])
  {
    assert [child][1..] == [] && [] + [Frame(child, Begin)] == [Frame(child, Begin)];
  }

  /** A task submitted by thread `t` is queued, and worker `n` takes it and holds it. */
  lemma HandOver(c: Config, links: Links, steps: seq<Action>, s: State, n: nat, t: nat, task: Task, rest: seq<string>)
    returns (steps': seq<Action>, s': State)
    requires Now(c, links, steps, s) && Calm(c, s, n) && c.capacity >= 1 && n <= c.workers && 0 < t < n
    requires Only(s, t, Frame(task, Submitting(rest))) && rest != []
    ensures Now(c, links, steps', s') && Calm(c, s', n + 1)
    ensures SameRecords(s, s') && SameStacks(s, s', t, n, n + 1)
    ensures Only(s', t, Frame(task, Submitting(rest[1..]))) && HeldAt(s', n, rest[0], task.depth + 1)
  {
    hide Now, Apply, Enabled, Sharp;
    var child := Task(s.submitted, rest[0], task.depth + 1);
    AddsChild(c, s, t, task, rest);
    var s1 := Apply(c, s, AddChild(t));
    HandsChild(c, s1, t, task, child, rest[1..]);
    var s2 := Apply(c, s1, HandChild(t));
    Receives(c, s2, n, child);
    s' := Apply(c, s2, Receive(n));
    PlainIsSharp(c, links, s, AddChild(t));
    PlainIsSharp(c, links, s1, HandChild(t));
    PlainIsSharp(c, links, s2, Receive(n));
    OneStep(c, links, steps, s, AddChild(t));
    OneStep(c, links, steps + [AddChild(t)], s1, HandChild(t));
    OneStep(c, links, steps + [AddChild(t)] + [HandChild(t)], s2, Receive(n));
    steps' := steps + [AddChild(t)] + [HandChild(t)] + [Receive(n)];
  }

  lemma PlainIsSharp(c: Config, links: Links, s: State, a: Action)
    requires Enabled(c, s, a) && !a.Leave? && !a.Fail? && !a.Parse? && !a.Missing?
    ensures Sharp(c, links, s, a)
  {
  }

  /** All links are handed over, each to a worker of its own. */
  lemma {:induction false} HandAll(c: Config, links: Links, steps: seq<Action>, s: State, n: nat, t: nat,
                                   task: Task, rest: seq<string>)
    returns (steps': seq<Action>, s': State)
    requires Now(c, links, steps, s) && Calm(c, s, n) && c.capacity >= 1 && 0 < t < n
    requires Only(s, t, Frame(task, Submitting(rest))) && n + |rest| <= c.workers + 1
    ensures Now(c, links, steps', s') && Calm(c, s', n + |rest|)
    ensures SameRecords(s, s') && SameStacks(s, s', t, n, n + |rest|)
    ensures Only(s', t, Frame(task, Submitting([]))) && forall v <- rest :: Held(s', v, task.depth + 1)
    decreases |rest|
  {
    hide Now, HeldAt, Calm;
    if rest == [] {
      steps', s' := steps, s;
    } else {
      var steps1, s1 := HandOver(c, links, steps, s, n, t, task, rest);
      steps', s' := HandAll(c, links, steps1, s1, n + 1, t, task, rest[1..]);
      StillHeld(s1, s', t, n, n + 1, n + |rest|, rest[0], task.depth + 1);
      forall v <- rest
        ensures Held(s', v, task.depth + 1)
      {
        assert v == rest[0] || v in rest[1..];
      }
    }
  }

  lemma StillHeld(s: State, s': State, t: nat, i: nat, n: nat, n': nat, url: string, depth: nat)
    requires SameStacks(s, s', t, n, n') && HeldAt(s, i, url, depth) && i != t && i < n
    ensures HeldAt(s', i, url, depth) && Held(s', url, depth)
  {
    assert s'.stacks[i] == s.stacks[i];
    assert HeldAt(s', i, url, depth);
  }

  // ----- one page at a time

  /** The page has been recorded at no greater depth, or a task for it at this depth is held. */
  ghost predicate Settled(s: State, url: string, depth: nat) {
    (url in s.visited && s.visited[url] <= depth) || Held(s, url, depth)
  }

  /** Start pages and the links of all stored pages are settled. */
  ghost predicate Open(c: Config, links: Links, s: State) {
    && (forall u <- c.startUrls :: Settled(s, u, 0))
    && (forall u <- s.stored :: u in s.visited && forall v <- links(u) :: Settled(s, v, s.visited[u] + 1))
  }

  lemma Visits(c: Config, s: State, t: nat, url: string, depth: nat)
    requires HeldAt(s, t, url, depth) && depth < c.depth
    ensures Enabled(c, s, Visit(t))
    ensures var task := s.stacks[t][0].task;
            Apply(c, s, Visit(t)) ==
            if url !in s.visited then
              s.(stacks := s.stacks[t := [Frame(task, Fetching)]],
                 visited := s.visited[url := depth], fetched := s.fetched + [url])
            else s.(stacks := s.stacks[t := [Frame(task, if s.visited[url] <= depth then Finished else Loading)]])
  {
    hide State.To;
    var f := s.stacks[t][0];
    assert s.stacks[t] == [f];
    Replaced(c, s, t, f, NextPhase(s, Visit(t), t));
  }

  lemma Parses(c: Config, links: Links, s: State, t: nat, task: Task)
    requires Only(s, t, Frame(task, Fetching)) && |links(task.url)| <= c.maxLinks
    ensures var ls := Kept(s.visited, task.depth, links(task.url));
            && Enabled(c, s, Parse(t, ls)) && Sharp(c, links, s, Parse(t, ls))
            && Apply(c, s, Parse(t, ls)) ==
               s.(stacks := s.stacks[t := [Frame(task, Saving(ls))]], cached := s.cached[task.url := ls])
  {
    hide State.To;
    Replaced(c, s, t, Frame(task, Fetching), Saving(Kept(s.visited, task.depth, links(task.url))));
  }

  lemma Saves(c: Config, s: State, t: nat, task: Task, ls: seq<string>)
    requires Only(s, t, Frame(task, Saving(ls)))
    ensures Enabled(c, s, Save(t))
    ensures Apply(c, s, Save(t)) ==
            s.(stacks := s.stacks[t := [Frame(task, Submitting(ls))]], stored := s.stored[task.url := ls])
  {
    hide State.To;
    Replaced(c, s, t, Frame(task, Saving(ls)), Submitting(ls));
  }

  lemma Ends(c: Config, s: State, t: nat, task: Task)
    requires Only(s, t, Frame(task, Submitting([])))
    ensures Enabled(c, s, LinksDone(t))
    ensures Apply(c, s, LinksDone(t)) == s.(stacks := s.stacks[t := [Frame(task, Finished)]])
  {
    hide State.To;
    Replaced(c, s, t, Frame(task, Submitting([])), Finished);
  }

  lemma Returns(c: Config, s: State, t: nat, task: Task)
    requires Only(s, t, Frame(task, Finished))
    ensures Enabled(c, s, Done(t))
    ensures var s' := Apply(c, s, Done(t));
            s' == s.(stacks := s.stacks[t := []], wg := s'.wg, panicked := s'.panicked, completed := s'.completed)
  {
    assert [Frame(task, Finished)][..0] == [];
  }

  /** Fetching starts on a page held and not yet recorded. */
  lemma VisitHeld(c: Config, links: Links, steps: seq<Action>, s: State, n: nat, url: string, depth: nat)
    returns (steps': seq<Action>, s': State, t: nat, task: Task)
    requires Now(c, links, steps, s) && Calm(c, s, n) && Open(c, links, s)
    requires Held(s, url, depth) && url !in s.visited && depth < c.depth
    ensures Now(c, links, steps', s') && Calm(c, s', n) && Open(c, links, s')
    ensures 0 < t < n && task.url == url && task.depth == depth
    ensures Only(s, t, Frame(task, Begin)) && Only(s', t, Frame(task, Fetching)) && SameStacks(s, s', t, 0, 0)
    ensures s'.visited == s.visited[url := depth] && s'.cached == s.cached && s'.stored == s.stored
    ensures s'.main == s.main
  {
    hide Now, Apply, Enabled, Sharp;
    t :| HeldAt(s, t, url, depth);
    task := s.stacks[t][0].task;
    assert s.stacks[t] == [s.stacks[t][0]];
    Visits(c, s, t, url, depth);
    s' := Apply(c, s, Visit(t));
    PlainIsSharp(c, links, s, Visit(t));
    OneStep(c, links, steps, s, Visit(t));
    steps' := steps + [Visit(t)];
    VisitKeepsOpen(c, links, s, s', t, url, depth);
  }

  lemma VisitKeepsSettled(s: State, s': State, t: nat, url: string, depth: nat, v: string, k: nat)
    requires HeldAt(s, t, url, depth) && url !in s.visited && s'.visited == s.visited[url := depth]
    requires SameStacks(s, s', t, 0, 0) && Settled(s, v, k)
    ensures Settled(s', v, k)
  {
    if !(v in s.visited && s.visited[v] <= k) {
      var i: nat :| HeldAt(s, i, v, k);
      if i != t {
        assert s'.stacks[i] == s.stacks[i];
        assert HeldAt(s', i, v, k);
      }
    }
  }

  lemma VisitKeepsOpen(c: Config, links: Links, s: State, s': State, t: nat, url: string, depth: nat)
    requires HeldAt(s, t, url, depth) && url !in s.visited && s'.visited == s.visited[url := depth]
    requires SameStacks(s, s', t, 0, 0) && s'.stored == s.stored && Open(c, links, s)
    ensures Open(c, links, s')
  {
    hide Settled, HeldAt, SameStacks;
    forall u <- c.startUrls
      ensures Settled(s', u, 0)
    {
      VisitKeepsSettled(s, s', t, url, depth, u, 0);
    }
    forall u <- s.stored, v <- links(u)
      ensures Settled(s', v, s.visited[u] + 1)
    {
      VisitKeepsSettled(s, s', t, url, depth, v, s.visited[u] + 1);
    }
  }

  /** A page being fetched is read and saved, its links are handed over, and its task returns. */
  lemma Unfold(c: Config, links: Links, steps: seq<Action>, s: State, n: nat, t: nat, task: Task)
    returns (steps': seq<Action>, s': State, n': nat)
    requires Now(c, links, steps, s) && Calm(c, s, n) && c.capacity >= 1 && 0 < t < n
    requires Only(s, t, Frame(task, Fetching)) && |links(task.url)| <= c.maxLinks
    requires n + |links(task.url)| <= c.workers + 1
    ensures var ls := Kept(s.visited, task.depth, links(task.url));
            && n' == n + |ls| && s'.cached == s.cached[task.url := ls] && s'.stored == s.stored[task.url := ls]
            && forall v <- ls :: Held(s', v, task.depth + 1)
    ensures Now(c, links, steps', s') && Calm(c, s', n')
    ensures SameStacks(s, s', t, n, n') && s'.stacks[t] == []
    ensures s'.visited == s.visited && s'.fetched == s.fetched && s'.main == s.main
  {
    hide Now, Apply, Enabled, Sharp;
    var ls := Kept(s.visited, task.depth, links(task.url));
    Parses(c, links, s, t, task);
    var s1 := Apply(c, s, Parse(t, ls));
    OneStep(c, links, steps, s, Parse(t, ls));
    Saves(c, s1, t, task, ls);
    var s2 := Apply(c, s1, Save(t));
    PlainIsSharp(c, links, s1, Save(t));
    OneStep(c, links, steps + [Parse(t, ls)], s1, Save(t));
    var steps3, s3 := HandAll(c, links, steps + [Parse(t, ls)] + [Save(t)], s2, n, t, task, ls);
    n' := n + |ls|;
    steps', s' := Retire(c, links, steps3, s3, n', t, task);
    forall v <- ls
      ensures Held(s', v, task.depth + 1)
    {
      HeldElsewhere(s3, s', t, v, task.depth + 1);
    }
  }

  lemma HeldElsewhere(s: State, s': State, t: nat, url: string, depth: nat)
    requires SameStacks(s, s', t, 0, 0) && Held(s, url, depth) && !HeldAt(s, t, url, depth)
    ensures Held(s', url, depth)
  {
    var i: nat :| HeldAt(s, i, url, depth);
    assert s'.stacks[i] == s.stacks[i];
    assert HeldAt(s', i, url, depth);
  }

  lemma Retire(c: Config, links: Links, steps: seq<Action>, s: State, n: nat, t: nat, task: Task)
    returns (steps': seq<Action>, s': State)
    requires Now(c, links, steps, s) && Calm(c, s, n) && 0 < t < n && Only(s, t, Frame(task, Submitting([])))
    ensures Now(c, links, steps', s') && Calm(c, s', n) && SameRecords(s, s')
    ensures SameStacks(s, s', t, 0, 0) && s'.stacks[t] == []
  {
    hide Now, Apply, Enabled, Sharp;
    Ends(c, s, t, task);
    var s1 := Apply(c, s, LinksDone(t));
    PlainIsSharp(c, links, s, LinksDone(t));
    OneStep(c, links, steps, s, LinksDone(t));
    Returns(c, s1, t, task);
    s' := Apply(c, s1, Done(t));
    PlainIsSharp(c, links, s1, Done(t));
    OneStep(c, links, steps + [LinksDone(t)], s1, Done(t));
    steps' := steps + [LinksDone(t)] + [Done(t)];
  }

  lemma UnfoldKeepsSettled(c: Config, s: State, s': State, t: nat, task: Task, n: nat, n': nat, v: string, k: nat)
    requires Calm(c, s, n) && Only(s, t, Frame(task, Fetching)) && SameStacks(s, s', t, n, n')
    requires s'.visited == s.visited && Settled(s, v, k)
    ensures Settled(s', v, k)
  {
    if !(v in s.visited && s.visited[v] <= k) {
      var i: nat :| HeldAt(s, i, v, k);
      StillHeld(s, s', t, i, n, n', v, k);
    }
  }

  lemma UnfoldKeepsOpen(c: Config, links: Links, s: State, s': State, t: nat, task: Task, n: nat, n': nat)
    requires Calm(c, s, n) && Only(s, t, Frame(task, Fetching)) && SameStacks(s, s', t, n, n') && Open(c, links, s)
    requires s'.visited == s.visited && task.url in s.visited && s.visited[task.url] == task.depth
    requires s'.stored.Keys == s.stored.Keys + {task.url}
    requires forall v <- Kept(s.visited, task.depth, links(task.url)) :: Held(s', v, task.depth + 1)
    ensures Open(c, links, s')
  {
    hide HeldAt, SameStacks, Calm;
    forall u <- c.startUrls
      ensures Settled(s', u, 0)
    {
      UnfoldKeepsSettled(c, s, s', t, task, n, n', u, 0);
    }
    forall u <- s'.stored, v <- links(u)
      ensures Settled(s', v, s'.visited[u] + 1)
    {
      if u != task.url {
        UnfoldKeepsSettled(c, s, s', t, task, n, n', v, s.visited[u] + 1);
      } else if v in Kept(s.visited, task.depth, links(task.url)) {
        assert Held(s', v, task.depth + 1);
      }
    }
  }

  /** A fetch in progress stays in progress. */
  ghost predicate KeepsFetches(s: State, s': State) {
    forall i: nat, task :: Only(s, i, Frame(task, Fetching)) ==> Only(s', i, Frame(task, Fetching))
  }

  /** These pages have been fetched and their links handed over. */
  ghost predicate Led(s: State, s': State, pages: set<string>) {
    && s'.main == s.main && KeepsFetches(s, s') && Extends(s.visited, s'.visited)
    && s'.visited.Keys == s.visited.Keys + pages
    && s'.cached.Keys == s.cached.Keys + pages && s'.stored.Keys == s.stored.Keys + pages
  }

  lemma LedOn(s: State, s1: State, s': State, first: set<string>, rest: set<string>)
    requires Led(s, s1, first) && Led(s1, s', rest)
    ensures Led(s, s', first + rest)
  {
  }

  function PagesOf(p: seq<string>, i: nat, j: nat): set<string>
    requires i <= j <= |p|
  {
    set u | u in p[i..j]
  }

  lemma FirstPage(p: seq<string>, i: nat, j: nat)
    requires i < j <= |p|
    ensures PagesOf(p, i, j) == {p[i]} + PagesOf(p, i + 1, j)
  {
    assert p[i..j] == [p[i]] + p[i + 1..j];
  }

  /** A page held and not yet recorded is fetched, and its links are handed over. */
  lemma Expand(c: Config, links: Links, steps: seq<Action>, s: State, n: nat, url: string, depth: nat)
    returns (steps': seq<Action>, s': State, n': nat)
    requires Now(c, links, steps, s) && Calm(c, s, n) && Open(c, links, s) && c.capacity >= 1
    requires Held(s, url, depth) && url !in s.visited && depth < c.depth
    requires |links(url)| <= c.maxLinks && n + c.maxLinks <= c.workers + 1
    ensures Now(c, links, steps', s') && Calm(c, s', n') && Open(c, links, s') && n' <= n + c.maxLinks
    ensures s'.visited == s.visited[url := depth] && Led(s, s', {url})
  {
    hide Now, Open, Held;
    var steps1, s1, t, task := VisitHeld(c, links, steps, s, n, url, depth);
    steps', s', n' := Unfold(c, links, steps1, s1, n, t, task);
    UnfoldKeepsOpen(c, links, s1, s', t, task, n, n');
    forall i: nat, other | Only(s, i, Frame(other, Fetching))
      ensures Only(s', i, Frame(other, Fetching))
    {
      assert i != t && i < n;
      assert s1.stacks[i] == s.stacks[i];
      assert s'.stacks[i] == s1.stacks[i];
    }
  }

  /** The pages of a path from number `i` to number `j` are fetched one after the other, each at its place,
      while all other tasks wait. */
  lemma {:induction false} Lead(c: Config, links: Links, steps: seq<Action>, s: State, n: nat,
                                p: seq<string>, i: nat, j: nat)
    returns (steps': seq<Action>, s': State, n': nat)
    requires Now(c, links, steps, s) && Calm(c, s, n) && Open(c, links, s) && c.capacity >= 1
    requires Path(c, links, p) && i <= j < |p| && j <= c.depth && Simple(p)
    requires forall l :: i <= l < j ==> p[l] !in s.visited
    requires i > 0 ==> p[i - 1] in s.stored && s.visited[p[i - 1]] == i - 1
    requires (forall u :: |links(u)| <= c.maxLinks) && n + Times(j - i, c.maxLinks) <= c.workers + 1
    ensures Now(c, links, steps', s') && Calm(c, s', n') && Open(c, links, s')
    ensures n' <= n + Times(j - i, c.maxLinks) && Led(s, s', PagesOf(p, i, j))
    ensures forall l :: i <= l < j ==> p[l] in s'.visited && s'.visited[p[l]] == l
    ensures j > 0 ==> p[j - 1] in s'.stored && s'.visited[p[j - 1]] == j - 1
    decreases j - i
  {
    hide Now, Calm, Held, Open, Led, PagesOf;
    if i == j {
      steps', s', n' := steps, s, n;
      LedNowhere(s, p, i);
    } else {
      NextIsHeld(c, links, s, p, i);
      var steps1, s1, n1 := Expand(c, links, steps, s, n, p[i], i);
      LedTo(s, s1, p[i]);
      steps', s', n' := Lead(c, links, steps1, s1, n1, p, i + 1, j);
      FirstPage(p, i, j);
      LedOn(s, s1, s', {p[i]}, PagesOf(p, i + 1, j));
      LedExtends(s1, s', PagesOf(p, i + 1, j));
    }
  }

  lemma LedNowhere(s: State, p: seq<string>, i: nat)
    requires i <= |p|
    ensures Led(s, s, PagesOf(p, i, i))
  {
  }

  lemma LedExtends(s: State, s': State, pages: set<string>)
    requires Led(s, s', pages)
    ensures Extends(s.visited, s'.visited)
  {
  }

  lemma LedTo(s: State, s': State, url: string)
    requires Led(s, s', {url})
    ensures url in s'.stored
  {
  }

  lemma NextIsHeld(c: Config, links: Links, s: State, p: seq<string>, i: nat)
    requires Open(c, links, s) && Path(c, links, p) && i < |p|
    requires i > 0 ==> p[i - 1] in s.stored && s.visited[p[i - 1]] == i - 1
    requires p[i] in s.visited ==> s.visited[p[i]] > i
    ensures Held(s, p[i], i)
  {
    hide Held;
    if i > 0 {
      assert p[i] in links(p[i - 1]);
      assert Settled(s, p[i], s.visited[p[i - 1]] + 1);
    } else {
      assert Settled(s, p[0], 0);
    }
  }

  // ----- the start pages

  lemma SeedsOne(c: Config, s: State, urls: seq<string>)
    requires s.main == Seeding(urls) && urls != [] && |s.stacks| > 0 && s.stacks[0] == []
    ensures Enabled(c, s, Seed)
    ensures Apply(c, s, Seed) ==
            s.(wg := s.wg + 1, submitted := s.submitted + 1,
               main := HandingSeed(Task(s.submitted, urls[0], 0), urls[1..]))
  {
  }

  lemma HandsSeed(c: Config, s: State, seed: Task, urls: seq<string>)
    requires s.main == HandingSeed(seed, urls) && |s.stacks| > 0 && !s.closed && s.queue == [] && c.capacity >= 1
    ensures Enabled(c, s, HandSeed)
    ensures Apply(c, s, HandSeed) == s.(main := Seeding(urls), queue := [seed])
  {
  }

  lemma {:induction false} SeedAll(c: Config, links: Links, steps: seq<Action>, s: State, n: nat, urls: seq<string>)
    returns (steps': seq<Action>, s': State)
    requires Now(c, links, steps, s) && Calm(c, s, n) && c.capacity >= 1 && s.main == Seeding(urls)
    requires n + |urls| <= c.workers + 1
    ensures Now(c, links, steps', s') && Calm(c, s', n + |urls|) && s'.main == Seeding([])
    ensures s'.visited == s.visited && s'.cached == s.cached && s'.stored == s.stored
    ensures SameStacks(s, s', n, n, n + |urls|) && forall u <- urls :: Held(s', u, 0)
    decreases |urls|
  {
    hide Now, Apply, Enabled, Sharp;
    if urls == [] {
      steps', s' := steps, s;
    } else {
      var seed := Task(s.submitted, urls[0], 0);
      SeedsOne(c, s, urls);
      var s1 := Apply(c, s, Seed);
      HandsSeed(c, s1, seed, urls[1..]);
      var s2 := Apply(c, s1, HandSeed);
      Receives(c, s2, n, seed);
      var s3 := Apply(c, s2, Receive(n));
      PlainIsSharp(c, links, s, Seed);
      PlainIsSharp(c, links, s1, HandSeed);
      PlainIsSharp(c, links, s2, Receive(n));
      OneStep(c, links, steps, s, Seed);
      OneStep(c, links, steps + [Seed], s1, HandSeed);
      OneStep(c, links, steps + [Seed] + [HandSeed], s2, Receive(n));
      steps', s' := SeedAll(c, links, steps + [Seed] + [HandSeed] + [Receive(n)], s3, n + 1, urls[1..]);
      assert HeldAt(s3, n, urls[0], 0);
      assert s'.stacks[n] == s3.stacks[n];
      assert HeldAt(s', n, urls[0], 0);
      forall u <- urls
        ensures Held(s', u, 0)
      {
        assert u == urls[0] || u in urls[1..];
      }
    }
  }

  /** A run from nothing in which every start page is held. */
  lemma Seeded(c: Config, links: Links) returns (steps: seq<Action>, s: State)
    requires c.loaded == map[] && c.bank == map[] && c.capacity >= 1 && |c.startUrls| <= c.workers
    ensures Now(c, links, steps, s) && Calm(c, s, 1 + |c.startUrls|) && Open(c, links, s) && s.main == Seeding([])
    ensures s.visited == map[] && s.cached == map[] && s.stored == map[]
  {
    hide HeldAt;
    assert Now(c, links, [], Init(c)) && Calm(c, Init(c), 1);
    steps, s := SeedAll(c, links, [], Init(c), 1, c.startUrls);
  }

  // ----- approaching a page on a path of one's choice

  lemma {:induction false} TimesAdds(a: nat, b: nat, x: nat)
    ensures Times(a + b, x) == Times(a, x) + Times(b, x)
  {
    if b > 0 {
      TimesAdds(a, b - 1, x);
    }
  }

  /** As many workers as there can be tasks when `n` pages hand on their links. */
  ghost predicate EnoughWorkers(c: Config, n: nat) {
    c.workers >= |c.startUrls| + Times(n, c.maxLinks) && c.capacity >= 1
  }

  ghost predicate FromNothing(c: Config, links: Links) {
    c.loaded == map[] && c.bank == map[] && forall u :: |links(u)| <= c.maxLinks
  }

  /** The pages of the path have been recorded at their places and all but the last are stored. */
  ghost predicate Approached(c: Config, links: Links, s: State, q: seq<string>, n: nat) {
    && q != [] && Calm(c, s, n) && Open(c, links, s) && n <= 1 + |c.startUrls| + Times(|q| - 1, c.maxLinks)
    && s.visited.Keys == PagesOf(q, 0, |q|) && (forall i :: 0 <= i < |q| ==> q[i] in s.visited && s.visited[q[i]] == i)
    && s.cached.Keys == PagesOf(q, 0, |q| - 1) && s.stored.Keys == PagesOf(q, 0, |q| - 1)
    && s.main == Seeding([])
  }

  lemma {:induction false} MorePages(p: seq<string>, i: nat, j: nat)
    requires i <= j < |p|
    ensures PagesOf(p, i, j + 1) == PagesOf(p, i, j) + {p[j]}
  {
    assert p[i..j + 1] == p[i..j] + [p[j]];
  }

  lemma NotAmong(p: seq<string>, i: nat, j: nat, url: string)
    requires i <= j <= |p| && forall l :: i <= l < j ==> p[l] != url
    ensures url !in PagesOf(p, i, j)
  {
  }

  /** A run in which the pages of a simple path are the first to be looked up, and the last is being fetched. */
  lemma Approach(c: Config, links: Links, q: seq<string>)
    returns (steps: seq<Action>, s: State, n: nat, t: nat, task: Task)
    requires FromNothing(c, links) && EnoughWorkers(c, |q|) && Path(c, links, q) && Simple(q) && |q| <= c.depth
    ensures Now(c, links, steps, s) && Approached(c, links, s, q, n)
    ensures 0 < t < n && Only(s, t, Frame(task, Fetching)) && task.url == q[|q| - 1] && task.depth == |q| - 1
  {
    hide Now, Calm, Open, Held, PagesOf;
    var k := |q| - 1;
    TimesAdds(k, 1, c.maxLinks);
    var steps0, s0 := Seeded(c, links);
    var steps1, s1, n1 := Lead(c, links, steps0, s0, 1 + |c.startUrls|, q, 0, k);
    LedFromNothing(s0, s1, q, k);
    NotAmong(q, 0, k, q[k]);
    NextIsHeld(c, links, s1, q, k);
    steps, s, t, task := VisitHeld(c, links, steps1, s1, n1, q[k], k);
    n := n1;
    MorePages(q, 0, k);
  }

  lemma LedFromNothing(s: State, s': State, q: seq<string>, k: nat)
    requires k <= |q| && Led(s, s', PagesOf(q, 0, k)) && s.visited == map[] && s.cached == map[] && s.stored == map[]
    ensures s'.visited.Keys == s'.cached.Keys == s'.stored.Keys == PagesOf(q, 0, k) && s'.main == s.main
  {
  }

  // ----- an early reload

  /** A shorter path that agrees with the longer one at first and shares no page with it afterwards, but the last. */
  predicate Forks(p: seq<string>, q: seq<string>, m: nat) {
    && m < |p| < |q| && p[|p| - 1] == q[|q| - 1] && p[..m] == q[..m]
    && forall i, j :: m <= i < |p| - 1 && 0 <= j < |q| ==> p[i] != q[j]
  }

  /** A page is looked up again, higher than it was first, while it is still being fetched: its links are nowhere. */
  ghost predicate EarlyReload(s: State, t: nat, url: string) {
    && (exists task :: Only(s, t, Frame(task, Loading)) && task.url == url)
    && (exists i: nat, task :: Only(s, i, Frame(task, Fetching)) && task.url == url)
    && url in s.visited && url !in s.cached && url !in s.stored
  }

  /** With enough workers there is a run with an early reload at the end of two paths that fork. */
  lemma ForkReloads(c: Config, links: Links, p: seq<string>, q: seq<string>, m: nat)
    returns (steps: seq<Action>, s: State, t: nat)
    requires FromNothing(c, links) && EnoughWorkers(c, |p| + |q|) && |q| <= c.depth
    requires Path(c, links, p) && Path(c, links, q) && Simple(p) && Simple(q) && Forks(p, q, m)
    ensures Now(c, links, steps, s) && EarlyReload(s, t, q[|q| - 1])
  {
    hide Now, Calm, Open, Held, PagesOf, Apply, Enabled, Sharp, Path;
    var k, u := |p| - 1, q[|q| - 1];
    TimesAdds(|q|, |p|, c.maxLinks);
    TimesAdds(|q| - 1, 1, c.maxLinks);
    TimesAdds(k - m, m + 1, c.maxLinks);
    var steps1, s1, n1, i, task := Approach(c, links, q);
    ForkIsOpen(s1, p, q, m);
    var steps2, s2, n2 := Lead(c, links, steps1, s1, n1, p, m, k);
    ForkUnread(s1, s2, p, q, m);
    NextIsHeld(c, links, s2, p, k);
    t := LooksAgain(c, s2, u, k);
    s := Apply(c, s2, Visit(t));
    PlainIsSharp(c, links, s2, Visit(t));
    OneStep(c, links, steps2, s2, Visit(t));
    steps := steps2 + [Visit(t)];
    StillFetching(s2, s, i, t, task);
  }

  lemma StillFetching(s: State, s': State, i: nat, t: nat, task: Task)
    requires Only(s, i, Frame(task, Fetching)) && SameStacks(s, s', t, 0, 0) && i != t
    ensures Only(s', i, Frame(task, Fetching))
  {
    assert s'.stacks[i] == s.stacks[i];
  }

  lemma LooksAgain(c: Config, s: State, url: string, depth: nat) returns (t: nat)
    requires Held(s, url, depth) && depth < c.depth && url in s.visited && s.visited[url] > depth
    ensures Enabled(c, s, Visit(t)) && HeldAt(s, t, url, depth)
    ensures var s' := Apply(c, s, Visit(t));
            && SameStacks(s, s', t, 0, 0) && SameRecords(s, s')
            && exists task :: Only(s', t, Frame(task, Loading)) && task.url == url
  {
    t :| HeldAt(s, t, url, depth);
    Visits(c, s, t, url, depth);
    assert Only(Apply(c, s, Visit(t)), t, Frame(s.stacks[t][0].task, Loading));
  }

  /** After the longer path, the rest of the shorter one is still to be looked up. */
  lemma ForkIsOpen(s: State, p: seq<string>, q: seq<string>, m: nat)
    requires Forks(p, q, m) && s.visited.Keys == PagesOf(q, 0, |q|) && s.stored.Keys == PagesOf(q, 0, |q| - 1)
    requires forall i :: 0 <= i < |q| ==> q[i] in s.visited && s.visited[q[i]] == i
    ensures forall l :: m <= l < |p| - 1 ==> p[l] !in s.visited
    ensures m > 0 ==> p[m - 1] in s.stored && s.visited[p[m - 1]] == m - 1
  {
    forall l | m <= l < |p| - 1
      ensures p[l] !in PagesOf(q, 0, |q|)
    {
      NotAmong(q, 0, |q|, p[l]);
    }
    if m > 0 {
      assert p[..m][m - 1] == q[..m][m - 1];
      assert q[m - 1] in q[0..|q| - 1] by { assert q[0..|q| - 1][m - 1] == q[m - 1]; }
    }
  }

  /** The last page has been recorded at the end of the longer path and its links are nowhere yet. */
  lemma ForkUnread(s1: State, s2: State, p: seq<string>, q: seq<string>, m: nat)
    requires Forks(p, q, m) && Simple(p) && Simple(q) && Led(s1, s2, PagesOf(p, m, |p| - 1))
    requires s1.cached.Keys == PagesOf(q, 0, |q| - 1) && s1.stored.Keys == PagesOf(q, 0, |q| - 1)
    requires q[|q| - 1] in s1.visited && s1.visited[q[|q| - 1]] == |q| - 1
    ensures var u := q[|q| - 1];
            u !in s2.cached && u !in s2.stored && u in s2.visited && s2.visited[u] == |q| - 1
  {
    hide PagesOf;
    var u := q[|q| - 1];
    NotAmong(q, 0, |q| - 1, u);
    NotAmong(p, m, |p| - 1, u);
  }

  // ----- two simple paths of different lengths fork somewhere

  /** The last place before `n` at which the paths meet. */
  function Meet(p: seq<string>, q: seq<string>, n: nat): (m: nat)
    requires n <= |p| && n <= |q|
    ensures m <= n && (m > 0 ==> p[m - 1] == q[m - 1])
    ensures forall i :: m <= i < n ==> p[i] != q[i]
  {
    if n == 0 then 0 else if p[n - 1] == q[n - 1] then n else Meet(p, q, n - 1)
  }

  lemma PrefixPath(c: Config, links: Links, p: seq<string>, i: nat)
    requires Path(c, links, p) && Simple(p) && i < |p|
    ensures SimplePathTo(c, links, p[..i + 1], p[i])
  {
  }

  /** `r` is the longer path `q` with its first `m` pages taken from `p`; the two meet at the end and otherwise
      only at equal places, all of them before `m`. */
  ghost predicate Joined(p: seq<string>, q: seq<string>, m: nat, r: seq<string>) {
    && m < |p| < |q| == |r| && (forall i :: 0 <= i < |r| ==> r[i] == if i < m then p[i] else q[i])
    && p[|p| - 1] == q[|q| - 1] && (m > 0 ==> p[m - 1] == q[m - 1])
    && (forall i :: m <= i < |p| - 1 ==> p[i] != q[i])
    && (forall i, j :: 0 <= i < |p| - 1 && 0 <= j < |q| - 1 && p[i] == q[j] ==> i == j)
  }

  lemma JoinedPath(c: Config, links: Links, p: seq<string>, q: seq<string>, m: nat, r: seq<string>)
    requires Path(c, links, p) && Path(c, links, q) && Joined(p, q, m, r)
    ensures Path(c, links, r)
  {
    forall i | 0 < i < |r|
      ensures r[i] in links(r[i - 1])
    {
      assert r[i - 1] == if i < m then p[i - 1] else q[i - 1];
    }
  }

  lemma JoinedSimple(p: seq<string>, q: seq<string>, m: nat, r: seq<string>)
    requires Simple(p) && Simple(q) && Joined(p, q, m, r)
    ensures Simple(r)
  {
    forall i, j | 0 <= i < j < |r|
      ensures r[i] != r[j]
    {
      if i < m <= j == |q| - 1 {
        assert r[j] == p[|p| - 1];
      }
    }
  }

  lemma JoinedForks(p: seq<string>, q: seq<string>, m: nat, r: seq<string>)
    requires Simple(p) && Simple(q) && Joined(p, q, m, r)
    ensures Forks(p, r, m)
  {
    assert r[..m] == p[..m];
    forall i, j | m <= i < |p| - 1 && 0 <= j < |r|
      ensures p[i] != r[j]
    {
      if j == |q| - 1 {
        assert r[j] == p[|p| - 1];
      }
    }
  }

  /** The longer path can be made to agree with the shorter one up to the last place where they meet. */
  lemma Join(c: Config, links: Links, p: seq<string>, q: seq<string>, m: nat) returns (r: seq<string>)
    requires Path(c, links, p) && Path(c, links, q) && Simple(p) && Simple(q) && |p| < |q|
    requires p[|p| - 1] == q[|q| - 1] && m == Meet(p, q, |p| - 1)
    requires forall i, j :: 0 <= i < |p| - 1 && 0 <= j < |q| - 1 && p[i] == q[j] ==> i == j
    ensures |r| == |q| && Path(c, links, r) && Simple(r) && Forks(p, r, m)
  {
    hide Path, Simple, Forks;
    r := p[..m] + q[m..];
    assert Joined(p, q, m, r);
    JoinedPath(c, links, p, q, m, r);
    JoinedSimple(p, q, m, r);
    JoinedForks(p, q, m, r);
  }

  lemma {:induction false} FindFork(c: Config, links: Links, p: seq<string>, q: seq<string>)
    returns (p': seq<string>, q': seq<string>, m: nat)
    requires Path(c, links, p) && Path(c, links, q) && Simple(p) && Simple(q)
    requires |p| < |q| && p[|p| - 1] == q[|q| - 1]
    ensures |p'| <= |p| && |q'| <= |q|
    ensures Path(c, links, p') && Path(c, links, q') && Simple(p') && Simple(q') && Forks(p', q', m)
    decreases |p| + |q|
  {
    if i, j :| 0 <= i < |p| - 1 && 0 <= j < |q| - 1 && p[i] == q[j] && i != j {
      PrefixPath(c, links, p, i);
      PrefixPath(c, links, q, j);
      if i < j {
        p', q', m := FindFork(c, links, p[..i + 1], q[..j + 1]);
      } else {
        p', q', m := FindFork(c, links, q[..j + 1], p[..i + 1]);
      }
    } else {
      m := Meet(p, q, |p| - 1);
      p' := p;
      q' := Join(c, links, p, q, m);
    }
  }

  // ----- reloads, exactly

  ghost predicate NoReload(c: Config, links: Links, steps: seq<Action>, t: nat) {
    After(c, steps).At? && Smooth(c, links, steps) && After(c, steps).state.Running(t) ==>
      !After(c, steps).state.Top(t).phase.Loading?
  }

  lemma SameGraph(c: Config, links: Links, workers: nat)
    ensures Unambiguous(c.(workers := workers), links) <==> Unambiguous(c, links)
  {
    var c' := c.(workers := workers);
    assert forall p, u :: SimplePathTo(c', links, p, u) <==> SimplePathTo(c, links, p, u);
  }

  lemma AmbiguousReloads(c: Config, links: Links)
    returns (workers: nat, steps: seq<Action>, s: State, t: nat, url: string)
    requires FromNothing(c, links) && c.capacity >= 1 && !Unambiguous(c, links)
    ensures Now(c.(workers := workers), links, steps, s) && EarlyReload(s, t, url)
  {
    hide Now, EarlyReload, Path, Simple;
    var u, a, b :| SimplePathTo(c, links, a, u) && SimplePathTo(c, links, b, u)
                   && |a| <= c.depth && |b| <= c.depth && |a| != |b|;
    var p, q := if |a| < |b| then a else b, if |a| < |b| then b else a;
    LastOf(c, links, a, u);
    LastOf(c, links, b, u);
    var p', q', m := FindFork(c, links, p, q);
    workers := |c.startUrls| + Times(|p'| + |q'|, c.maxLinks);
    var c' := c.(workers := workers);
    SamePath(c, links, workers, p');
    SamePath(c, links, workers, q');
    steps, s, t := ForkReloads(c', links, p', q', m);
    url := q'[|q'| - 1];
  }

  lemma SamePath(c: Config, links: Links, workers: nat, p: seq<string>)
    requires Path(c, links, p)
    ensures Path(c.(workers := workers), links, p)
  {
  }

  /** For a crawl from nothing, over all numbers of workers and all undisturbed interleavings: no page is ever
      looked up higher than it was first, and so loaded again, if and only if all simple paths to a page that stay
      below the depth limit have the same length. Otherwise, with enough workers, a page is loaded again even
      before its links can be found. */
  lemma ReloadsIff(c: Config, links: Links)
    requires FromNothing(c, links) && c.capacity >= 1
    ensures Unambiguous(c, links) <==>
            forall workers: nat, steps, t: nat :: NoReload(c.(workers := workers), links, steps, t)
    ensures !Unambiguous(c, links) ==>
            exists workers: nat, steps, s, t: nat, url ::
              Now(c.(workers := workers), links, steps, s) && EarlyReload(s, t, url)
  {
    hide Unambiguous, FromNothing, Smooth, After;
    if Unambiguous(c, links) {
      forall workers: nat, steps, t: nat
        ensures NoReload(c.(workers := workers), links, steps, t)
      {
        UnambiguousNoReload(c, links, workers, steps, t);
      }
    } else {
      var workers, steps, s, t, url := AmbiguousReloads(c, links);
      EarlyIsReload(c.(workers := workers), links, steps, s, t, url);
    }
  }

  lemma UnambiguousNoReload(c: Config, links: Links, workers: nat, steps: seq<Action>, t: nat)
    requires FromNothing(c, links) && Unambiguous(c, links)
    ensures NoReload(c.(workers := workers), links, steps, t)
  {
    hide Unambiguous, Smooth, After;
    var c' := c.(workers := workers);
    SameGraph(c, links, workers);
    if After(c', steps).At? && Smooth(c', links, steps) && After(c', steps).state.Running(t) {
      NothingReloaded(c', links, steps, t);
    }
  }

  lemma EarlyIsReload(c: Config, links: Links, steps: seq<Action>, s: State, t: nat, url: string)
    requires Now(c, links, steps, s) && EarlyReload(s, t, url)
    ensures !NoReload(c, links, steps, t)
  {
    SharpIsSmooth(c, links, steps);
  }
}
