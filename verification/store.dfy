/**
 The dashboard's client-side store: the selected session, the feed of
 recent executions (newest first, at most 100), a cached analytics summary
 and three UI flags. Sessions, executions and summaries are opaque to the
 store, so they are type parameters.
 */
module Store {
  import opened Js

  const MaxRecentExecutions := 100

  /** `selectedPeriod`: '7d' | '30d' | 'all'. */
  datatype Period = Days7 | Days30 | AllTime

  datatype State<S, E, A> = State(
    activeSession: Option<S>,
    recentExecutions: seq<E>,
    analyticsSummary: Option<A>,
    selectedPeriod: Period,
    sidebarOpen: bool,
    demoMode: bool)

  /** The state the store is created with. */
  function Initial<S, E, A>(): State<S, E, A> {
    State(None, [], None, Days7, true, false)
  }

  /** The feed never holds more than 100 executions. */
  predicate Valid<S, E, A>(st: State<S, E, A>) {
    |st.recentExecutions| <= MaxRecentExecutions
  }

  /** `addExecution`: the new execution goes in front, and the feed is cut
      to its first 100 entries. */
  function AddExecution<S, E, A>(st: State<S, E, A>, e: E): (r: State<S, E, A>)
    ensures |r.recentExecutions| == Min(|st.recentExecutions| + 1, MaxRecentExecutions)
    ensures r.recentExecutions[0] == e
    ensures r.recentExecutions[1..] == st.recentExecutions[..|r.recentExecutions| - 1]
    ensures r == st.(recentExecutions := r.recentExecutions)
  {
    st.(recentExecutions := Slice([e] + st.recentExecutions, 0, MaxRecentExecutions))
  }

  /** `clearExecutions`. */
  function ClearExecutions<S, E, A>(st: State<S, E, A>): (r: State<S, E, A>)
    ensures r.recentExecutions == []
    ensures r == st.(recentExecutions := [])
  {
    st.(recentExecutions := [])
  }

  /** The store's setters, one constructor each. */
  datatype Action<S, E, A> =
    | SessionSelected(session: Option<S>)
    | ExecutionAdded(execution: E)
    | ExecutionsCleared
    | SummaryLoaded(summary: A)
    | PeriodSelected(period: Period)
    | SidebarSet(open: bool)
    | DemoModeSet(enabled: bool)

  /** The effect of one setter: `set` merges the named field into the
      state, and nothing else changes. */
  function Apply<S, E, A>(st: State<S, E, A>, act: Action<S, E, A>): (r: State<S, E, A>)
    ensures act.ExecutionAdded? ==> r == AddExecution(st, act.execution)
    ensures act.ExecutionsCleared? ==> r == st.(recentExecutions := [])
    ensures !act.ExecutionAdded? && !act.ExecutionsCleared? ==> r.recentExecutions == st.recentExecutions
    ensures act.SessionSelected? ==> r == st.(activeSession := act.session)
    ensures act.SummaryLoaded? ==> r == st.(analyticsSummary := Some(act.summary))
    ensures act.PeriodSelected? ==> r == st.(selectedPeriod := act.period)
    ensures act.SidebarSet? ==> r == st.(sidebarOpen := act.open)
    ensures act.DemoModeSet? ==> r == st.(demoMode := act.enabled)
  {
    match act
    case SessionSelected(s) => st.(activeSession := s)
    case ExecutionAdded(e) => AddExecution(st, e)
    case ExecutionsCleared => ClearExecutions(st)
    case SummaryLoaded(a) => st.(analyticsSummary := Some(a))
    case PeriodSelected(p) => st.(selectedPeriod := p)
    case SidebarSet(open) => st.(sidebarOpen := open)
    case DemoModeSet(enabled) => st.(demoMode := enabled)
  }

  /** The actions applied in order. */
  function Run<S, E, A>(st: State<S, E, A>, acts: seq<Action<S, E, A>>): State<S, E, A>
    decreases |acts|
  {
    if acts == [] then st else Run(Apply(st, acts[0]), acts[1..])
  }

  /** Every setter keeps the feed within its bound. */
  lemma ApplyPreservesValid<S, E, A>(st: State<S, E, A>, act: Action<S, E, A>)
    requires Valid(st)
    ensures Valid(Apply(st, act))
  {
  }

  /** Whatever the setters do, in whatever order, the feed stays within its
      bound. */
  lemma {:induction false} RunPreservesValid<S, E, A>(st: State<S, E, A>, acts: seq<Action<S, E, A>>)
    requires Valid(st)
    ensures Valid(Run(st, acts))
    decreases |acts|
  {
    if acts != [] {
      ApplyPreservesValid(st, acts[0]);
      RunPreservesValid(Apply(st, acts[0]), acts[1..]);
    }
  }

  lemma RunFromInitialValid<S, E, A>(acts: seq<Action<S, E, A>>)
    ensures Valid(Run(Initial<S, E, A>(), acts))
  {
    RunPreservesValid(Initial<S, E, A>(), acts);
  }

  /** Adding executions one at a time. */
  function AddAll<S, E, A>(st: State<S, E, A>, es: seq<E>): State<S, E, A>
    decreases |es|
  {
    if es == [] then st else AddAll(AddExecution(st, es[0]), es[1..])
  }

  /** After adding a run of executions, the feed is the newest first: the
      run reversed in front of the old feed, cut to 100. */
  lemma {:induction false} AddAllNewestFirst<S, E, A>(st: State<S, E, A>, es: seq<E>)
    requires Valid(st)
    ensures AddAll(st, es).recentExecutions == Slice(Reverse(es) + st.recentExecutions, 0, MaxRecentExecutions)
    decreases |es|
  {
    if es == [] {
      assert Reverse(es) + st.recentExecutions == st.recentExecutions;
    } else {
      var st1 := AddExecution(st, es[0]);
      ApplyPreservesValid(st, ExecutionAdded(es[0]));
      AddAllNewestFirst(st1, es[1..]);
      var older := [es[0]] + st.recentExecutions;
      assert st1.recentExecutions == Slice(older, 0, MaxRecentExecutions);
      CutTwice(Reverse(es[1..]), older);
      assert Reverse(es) + st.recentExecutions == Reverse(es[1..]) + older;
    }
  }

  /** Cutting to 100 after putting more in front of a cut sequence is the
      same as cutting once. */
  lemma CutTwice<E>(front: seq<E>, rest: seq<E>)
    ensures Slice(front + Slice(rest, 0, MaxRecentExecutions), 0, MaxRecentExecutions)
            == Slice(front + rest, 0, MaxRecentExecutions)
  {
    var c := Slice(rest, 0, MaxRecentExecutions);
    var n := Min(|front + rest|, MaxRecentExecutions);
    assert Slice(front + rest, 0, MaxRecentExecutions) == (front + rest)[..n];
    assert Slice(front + c, 0, MaxRecentExecutions) == (front + c)[..n];
    forall k | 0 <= k < n
      ensures (front + c)[k] == (front + rest)[k]
    {
      if k >= |front| {
        assert c[k - |front|] == rest[k - |front|];
      }
    }
  }
}
