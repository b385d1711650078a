/** The bundle cache of apps/render-service/src/bundleCache.ts.

    `getBundleLocation` is a single-flight cache over two module variables,
    the cached bundle location and the promise of the build in flight. It is
    modelled sequentially: the state records every build started and how it
    settled, a call returns either the cached location or the number of the
    build whose promise the caller awaits, and a build's completion is an
    explicit event.

    `findRepoRoot` is a bounded walk up a directory tree, given the tree's
    parent function and what each directory holds. */
module BundleCache {
  import opened Results
  import opened Text

  // ---------------------------------------------------------------------
  // getBundleLocation
  // ---------------------------------------------------------------------

  /** How the promise of one build has settled so far. */
  datatype Settlement = Pending | Fulfilled(location: String) | Rejected(reason: String)

  /** `cachedBundleLocation`, `inflight` (as the number of the build whose
      promise it holds), and every build started so far, in order. */
  datatype CacheState = CacheState(cached: Option<String>, inflight: Option<nat>, builds: seq<Settlement>)

  /** The state when the module is loaded. */
  const Init := CacheState(None, None, [])

  /** What a call hands back: the cached location itself, or the promise of
      build number `build`. */
  datatype Reply = Cached(location: String) | Awaiting(build: nat)

  datatype Event = Call | BuildSucceeds(location: String) | BuildFails(reason: String)

  /** `if (cachedBundleLocation)`: an empty location is falsy. */
  predicate HasCached(st: CacheState) {
    st.cached.Some? && st.cached.value != []
  }

  /** The states the cache can reach: `inflight` names an existing build that
      is pending or has failed; every other build has settled; a cached
      location never coexists with a build in flight. */
  predicate Valid(st: CacheState) {
    && (st.inflight.Some? ==>
          && st.inflight.value < |st.builds|
          && !st.builds[st.inflight.value].Fulfilled?
          && !HasCached(st))
    && (forall i :: 0 <= i < |st.builds| && st.builds[i].Pending? ==> st.inflight == Some(i))
  }

  /** The build whose completion the next success or failure event reports. */
  function PendingBuild(st: CacheState): Option<nat> {
    if st.inflight.Some? && st.inflight.value < |st.builds| && st.builds[st.inflight.value].Pending?
    then st.inflight
    else None
  }

  datatype CallResult = CallResult(reply: Reply, state: CacheState)

  /** One call of `getBundleLocation`. */
  function GetBundleLocation(st: CacheState): (r: CallResult)
    ensures HasCached(st) ==> r == CallResult(Cached(st.cached.value), st)
    ensures !HasCached(st) && st.inflight.Some? ==> r == CallResult(Awaiting(st.inflight.value), st)
    ensures !HasCached(st) && st.inflight.None? ==>
      && r.reply == Awaiting(|st.builds|)
      && r.state == st.(inflight := Some(|st.builds|), builds := st.builds + [Pending])
  {
    if HasCached(st) then CallResult(Cached(st.cached.value), st)
    else if st.inflight.Some? then CallResult(Awaiting(st.inflight.value), st)
    else
      var n := |st.builds|;
      CallResult(Awaiting(n), st.(inflight := Some(n), builds := st.builds + [Pending]))
  }

  /** The pending build resolves with `location`: it is cached and the
      in-flight marker is cleared. Without a pending build nothing happens. */
  function Succeed(st: CacheState, location: String): (st': CacheState)
    ensures PendingBuild(st).None? ==> st' == st
  {
    match PendingBuild(st)
    case None => st
    case Some(n) => CacheState(Some(location), None, st.builds[n := Fulfilled(location)])
  }

  /** The pending build rejects: only its promise changes; `inflight` keeps
      holding the rejected promise and nothing is cached. */
  function Fail(st: CacheState, reason: String): (st': CacheState)
    ensures PendingBuild(st).None? ==> st' == st
  {
    match PendingBuild(st)
    case None => st
    case Some(n) => st.(builds := st.builds[n := Rejected(reason)])
  }

  /** The effect of one event on the state. */
  function Step(st: CacheState, e: Event): CacheState {
    match e
    case Call => GetBundleLocation(st).state
    case BuildSucceeds(loc) => Succeed(st, loc)
    case BuildFails(reason) => Fail(st, reason)
  }

  /** The state after a run of events. */
  function Run(st: CacheState, es: seq<Event>): CacheState
    decreases |es|
  {
    if es == [] then st else Run(Step(st, es[0]), es[1..])
  }

  /** The replies the calls among `es` receive, in order. */
  function Replies(st: CacheState, es: seq<Event>): seq<Reply>
    decreases |es|
  {
    if es == [] then []
    else
      var rest := Replies(Step(st, es[0]), es[1..]);
      if es[0].Call? then [GetBundleLocation(st).reply] + rest else rest
  }

  lemma InitValid()
    ensures Valid(Init)
  {
  }

  /** Every event keeps the state valid, and builds are only ever appended:
      a settled build stays settled the way it settled. */
  lemma StepValid(st: CacheState, e: Event)
    requires Valid(st)
    ensures Valid(Step(st, e))
    ensures |st.builds| <= |Step(st, e).builds|
    ensures forall i :: 0 <= i < |st.builds| && !st.builds[i].Pending? ==>
              Step(st, e).builds[i] == st.builds[i]
  {
    var st' := Step(st, e);
    match e
    case Call =>
      if !HasCached(st) && st.inflight.None? {
        forall i | 0 <= i < |st'.builds| && st'.builds[i].Pending?
          ensures st'.inflight == Some(i)
        {
        }
      }
    case BuildSucceeds(loc) =>
    case BuildFails(reason) =>
  }

  lemma {:induction false} RunValid(st: CacheState, es: seq<Event>)
    requires Valid(st)
    ensures Valid(Run(st, es))
    decreases |es|
  {
    if es != [] {
      StepValid(st, es[0]);
      RunValid(Step(st, es[0]), es[1..]);
    }
  }

  /** At most one build is ever pending. */
  lemma AtMostOnePending(st: CacheState, i: nat, j: nat)
    requires Valid(st)
    requires i < |st.builds| && j < |st.builds|
    requires st.builds[i].Pending? && st.builds[j].Pending?
    ensures i == j
  {
  }

  /** Once a non-empty location is cached, no event replaces or clears it, and
      no build starts again. */
  lemma {:induction false} CachedIsFinal(st: CacheState, es: seq<Event>)
    requires Valid(st) && HasCached(st)
    ensures Run(st, es).cached == st.cached
    ensures Run(st, es).builds == st.builds
    decreases |es|
  {
    if es != [] {
      assert PendingBuild(st).None?;
      assert Step(st, es[0]) == st;
      CachedIsFinal(st, es[1..]);
    }
  }

  /** Once a non-empty location is cached, every call gets it at once. */
  lemma {:induction false} CachedRepliesImmediately(st: CacheState, es: seq<Event>)
    requires Valid(st) && HasCached(st)
    ensures forall i :: 0 <= i < |Replies(st, es)| ==> Replies(st, es)[i] == Cached(st.cached.value)
    decreases |es|
  {
    if es != [] {
      assert PendingBuild(st).None?;
      assert Step(st, es[0]) == st;
      CachedRepliesImmediately(st, es[1..]);
    }
  }

  /** A state whose in-flight promise has rejected. */
  predicate Poisoned(st: CacheState) {
    && st.inflight.Some? && st.inflight.value < |st.builds|
    && st.builds[st.inflight.value].Rejected?
    && !HasCached(st)
  }

  /** A failed build is never retried: from then on the state never changes
      and every call is handed the same rejected promise. */
  lemma {:induction false} FailureIsFinal(st: CacheState, es: seq<Event>)
    requires Poisoned(st)
    ensures Run(st, es) == st
    ensures forall i :: 0 <= i < |Replies(st, es)| ==> Replies(st, es)[i] == Awaiting(st.inflight.value)
    decreases |es|
  {
    if es != [] {
      assert PendingBuild(st).None?;
      assert Step(st, es[0]) == st;
      FailureIsFinal(st, es[1..]);
    }
  }

  /** A build that fails leaves the cache poisoned. */
  lemma FailPoisons(st: CacheState, reason: String)
    requires Valid(st) && PendingBuild(st).Some?
    ensures Poisoned(Fail(st, reason))
  {
  }

  /** A build that succeeds with a non-empty location fills the cache. */
  lemma SucceedCaches(st: CacheState, location: String)
    requires Valid(st) && PendingBuild(st).Some? && location != []
    ensures var st' := Succeed(st, location);
      && HasCached(st') && st'.cached == Some(location) && st'.inflight.None?
      && st'.builds[PendingBuild(st).value] == Fulfilled(location)
  {
  }

  /** Single flight: any number of calls from a fresh module start exactly one
      build, and every caller awaits that one build. */
  lemma {:induction false} CallsShareOneBuild(n: nat)
    ensures Run(Init, seq(n, _ => Call)).builds == (if n == 0 then [] else [Pending])
    ensures Replies(Init, seq(n, _ => Call)) == seq(n, _ => Awaiting(0))
  {
    if n > 0 {
      var st := GetBundleLocation(Init).state;
      assert st == CacheState(None, Some(0), [Pending]);
      assert seq(n, _ => Call)[1..] == seq(n - 1, _ => Call);
      WaitingCalls(st, n - 1);
      assert seq(n, _ => Awaiting(0)) == [Awaiting(0)] + seq(n - 1, _ => Awaiting(0));
    }
  }

  /** Calls while a build is in flight change nothing and all await it. */
  lemma {:induction false} WaitingCalls(st: CacheState, n: nat)
    requires !HasCached(st) && st.inflight.Some?
    ensures Run(st, seq(n, _ => Call)) == st
    ensures Replies(st, seq(n, _ => Call)) == seq(n, _ => Awaiting(st.inflight.value))
    decreases n
  {
    if n > 0 {
      assert seq(n, _ => Call)[1..] == seq(n - 1, _ => Call);
      WaitingCalls(st, n - 1);
      assert seq(n, _ => Awaiting(st.inflight.value))
          == [Awaiting(st.inflight.value)] + seq(n - 1, _ => Awaiting(st.inflight.value));
    }
  }

  /** An empty location is cached but falsy, so the next call builds again. */
  lemma EmptyLocationRebuilds()
    ensures var st := Succeed(GetBundleLocation(Init).state, "");
      && st.cached == Some("")
      && GetBundleLocation(st).reply == Awaiting(1)
      && |GetBundleLocation(st).state.builds| == 2
  {
  }

  // ---------------------------------------------------------------------
  // findRepoRoot
  // ---------------------------------------------------------------------

  /** What `existsSync` reports about a directory's `package.json`,
      `packages` and `apps` entries. */
  datatype DirView = DirView(hasPackageJson: bool, hasPackages: bool, hasApps: bool)

  /** The loop bound of `findRepoRoot`. */
  const MaxDepth: nat := 12

  predicate IsRepoRoot(v: DirView) {
    v.hasPackageJson && (v.hasPackages || v.hasApps)
  }

  /** The directories the walk from `dir` can inspect in `n` steps: `dir`, its
      parent, and so on, ending early at a directory that is its own parent. */
  function Inspected<D(==)>(dir: D, n: nat, parent: D -> D): (ds: seq<D>)
    ensures |ds| <= n
    decreases n
  {
    if n == 0 then []
    else if parent(dir) == dir then [dir]
    else [dir] + Inspected(parent(dir), n - 1, parent)
  }

  /** The walk is a path up the tree: it starts at `dir`, each directory is
      followed by its parent (which differs from it), and a walk shorter than
      `n` ends at the root of the file system. */
  lemma {:induction false} InspectedSpec<D>(dir: D, n: nat, parent: D -> D)
    ensures var ds := Inspected(dir, n, parent);
      && (n > 0 ==> |ds| > 0 && ds[0] == dir)
      && (forall i :: 0 <= i < |ds| - 1 ==> ds[i + 1] == parent(ds[i]) && ds[i + 1] != ds[i])
      && (0 < |ds| < n ==> parent(ds[|ds| - 1]) == ds[|ds| - 1])
    decreases n
  {
    if n > 0 && parent(dir) != dir {
      InspectedSpec(parent(dir), n - 1, parent);
      var ds := Inspected(dir, n, parent);
      var rest := Inspected(parent(dir), n - 1, parent);
      assert ds == [dir] + rest;
      forall i | 0 <= i < |ds| - 1
        ensures ds[i + 1] == parent(ds[i]) && ds[i + 1] != ds[i]
      {
        if i > 0 {
          assert ds[i] == rest[i - 1] && ds[i + 1] == rest[i];
        }
      }
    }
  }

  /** None of the first `k` directories of `ds` is a repository root. */
  predicate NoRootBefore<D>(ds: seq<D>, k: nat, view: D -> DirView)
    requires k <= |ds|
  {
    forall j :: 0 <= j < k ==> !IsRepoRoot(view(ds[j]))
  }

  /** The loop of `findRepoRoot` from its `i`-th iteration at `dir`. */
  function Search<D(==)>(dir: D, i: nat, start: D, parent: D -> D, view: D -> DirView): D
    decreases MaxDepth - i
  {
    if i >= MaxDepth then start
    else if IsRepoRoot(view(dir)) then dir
    else if parent(dir) == dir then start
    else Search(parent(dir), i + 1, start, parent, view)
  }

  /** `findRepoRoot(startDir)`. */
  function FindRepoRoot<D(==)>(start: D, parent: D -> D, view: D -> DirView): D {
    Search(start, 0, start, parent, view)
  }

  /** Directory `k` of the walk `ds` is the first repository root in it. */
  predicate IsFirstRoot<D>(ds: seq<D>, k: nat, view: D -> DirView) {
    k < |ds| && IsRepoRoot(view(ds[k])) && NoRootBefore(ds, k, view)
  }

  /** The search from `dir` returns the first repository root the walk from
      `dir` meets. */
  lemma {:induction false} SearchFindsFirst<D>(dir: D, i: nat, start: D, parent: D -> D, view: D -> DirView, k: nat)
    requires i <= MaxDepth
    requires IsFirstRoot(Inspected(dir, MaxDepth - i, parent), k, view)
    ensures Search(dir, i, start, parent, view) == Inspected(dir, MaxDepth - i, parent)[k]
    decreases k
  {
    var ds := Inspected(dir, MaxDepth - i, parent);
    InspectedSpec(dir, MaxDepth - i, parent);
    if k > 0 {
      assert !IsRepoRoot(view(ds[0]));
      var rest := Inspected(parent(dir), MaxDepth - (i + 1), parent);
      assert ds == [dir] + rest;
      assert IsFirstRoot(rest, k - 1, view) by {
        forall j | 0 <= j < k - 1
          ensures !IsRepoRoot(view(rest[j]))
        {
          assert rest[j] == ds[j + 1];
        }
      }
      SearchFindsFirst(parent(dir), i + 1, start, parent, view, k - 1);
    }
  }

  /** The search from `dir` returns `start` when the walk from `dir` meets no
      repository root. */
  lemma {:induction false} SearchFindsNone<D>(dir: D, i: nat, start: D, parent: D -> D, view: D -> DirView)
    requires i <= MaxDepth
    requires NoRootBefore(Inspected(dir, MaxDepth - i, parent), |Inspected(dir, MaxDepth - i, parent)|, view)
    ensures Search(dir, i, start, parent, view) == start
    decreases MaxDepth - i
  {
    var ds := Inspected(dir, MaxDepth - i, parent);
    InspectedSpec(dir, MaxDepth - i, parent);
    if i < MaxDepth && parent(dir) != dir {
      assert !IsRepoRoot(view(ds[0]));
      var rest := Inspected(parent(dir), MaxDepth - (i + 1), parent);
      assert ds == [dir] + rest;
      assert NoRootBefore(rest, |rest|, view) by {
        forall j | 0 <= j < |rest|
          ensures !IsRepoRoot(view(rest[j]))
        {
          assert rest[j] == ds[j + 1];
        }
      }
      SearchFindsNone(parent(dir), i + 1, start, parent, view);
    } else if i < MaxDepth {
      assert !IsRepoRoot(view(ds[0]));
    }
  }

  /** `findRepoRoot` inspects at most `MaxDepth` directories, walking up from
      `start` and stopping at the file-system root; it returns the first of
      them holding `package.json` and `packages` or `apps`, and `start` when
      none does. */
  lemma FindRepoRootSpec<D>(start: D, parent: D -> D, view: D -> DirView)
    ensures var ds := Inspected(start, MaxDepth, parent);
      var r := FindRepoRoot(start, parent, view);
      && |ds| <= MaxDepth
      && (NoRootBefore(ds, |ds|, view) ==> r == start)
      && (forall k: nat :: IsFirstRoot(ds, k, view) ==> r == ds[k])
  {
    var ds := Inspected(start, MaxDepth, parent);
    if NoRootBefore(ds, |ds|, view) {
      SearchFindsNone(start, 0, start, parent, view);
    }
    forall k: nat | IsFirstRoot(ds, k, view)
      ensures FindRepoRoot(start, parent, view) == ds[k]
    {
      SearchFindsFirst(start, 0, start, parent, view, k);
    }
  }

  /** A start directory that is itself a repository root is returned as is. */
  lemma FindRepoRootAtStart<D>(start: D, parent: D -> D, view: D -> DirView)
    requires IsRepoRoot(view(start))
    ensures FindRepoRoot(start, parent, view) == start
  {
  }
}
