/** What one execution of a freshly built command does to the contexts and the repository. */
module CommandRuns {
  import opened Common
  import opened Commands
  import opened CommandOrder

  // ---------- Runs of one kind of hook ----------

  /** The contexts that injection hooks push on top of a context. */
  function Pushes(top: Context, hooks: seq<Hook>, env: Env): (r: seq<Context>)
    ensures |r| == |hooks|
    decreases |hooks|
  {
    if hooks == [] then [] else
      var before := Pushes(top, hooks[..|hooks| - 1], env);
      before + [match hooks[|hooks| - 1]
                case DatabaseInjection(write, path) =>
                  Context(if path.Some? then path.value else if before == [] then top.path else Top(before).path, write)
                case _ => Context(env.worktree, false)]
  }

  /** Hooks that look at something outside: a worktree, a database, a migration, changed files, a lock. */
  predicate CanRaise(h: Hook) {
    h.IsolationInjection? || h.DatabaseInjection? || h.MigrationPre? || h.CommitPre? || h.CleanPre? || h.LockPre?
  }

  ghost predicate OneRaises(hooks: seq<Hook>, env: Env) {
    exists i :: 0 <= i < |hooks| && CanRaise(hooks[i]) && env.raises(hooks[i])
  }

  lemma OneRaisesSnoc(hooks: seq<Hook>, env: Env)
    requires hooks != []
    ensures var n := |hooks| - 1;
            OneRaises(hooks, env) <==> OneRaises(hooks[..n], env) || (CanRaise(hooks[n]) && env.raises(hooks[n]))
  {
    assert forall i :: 0 <= i < |hooks| - 1 ==> hooks[..|hooks| - 1][i] == hooks[i];
  }

  lemma OneRaisesTogether(hooks: seq<Hook>, more: seq<Hook>, env: Env)
    ensures OneRaises(hooks + more, env) <==> OneRaises(hooks, env) || OneRaises(more, env)
  {
    var both := hooks + more;
    if i :| 0 <= i < |more| && CanRaise(more[i]) && env.raises(more[i]) {
      assert both[|hooks| + i] == more[i];
    }
    if i :| 0 <= i < |hooks| && CanRaise(hooks[i]) && env.raises(hooks[i]) {
      assert both[i] == hooks[i];
    }
  }

  lemma {:induction false} RunPushes(w: World, hooks: seq<Hook>, env: Env)
    requires w.stack != [] && AllPush(hooks)
    ensures Run(Going(w), hooks, env) ==
            if OneRaises(hooks, env) then Crashed else Going(w.(stack := w.stack + Pushes(Top(w.stack), hooks, env)))
    decreases |hooks|
  {
    if hooks != [] {
      OneRaisesSnoc(hooks, env);
      RunPushes(w, hooks[..|hooks| - 1], env);
      var pushed := Pushes(Top(w.stack), hooks[..|hooks| - 1], env);
      assert Top(w.stack + pushed) == if pushed == [] then Top(w.stack) else Top(pushed);
    } else {
      assert w.stack + [] == w.stack;
    }
  }

  lemma {:induction false} RunPres(w: World, hooks: seq<Hook>, env: Env)
    requires AllPre(hooks) && w.stack != [] && w.hasExitStack
    ensures Run(Going(w), hooks, env) == if OneRaises(hooks, env) then Crashed else Going(w)
    decreases |hooks|
  {
    if hooks != [] {
      OneRaisesSnoc(hooks, env);
      RunPres(w, hooks[..|hooks| - 1], env);
    }
  }

  /** What is written when contexts are left, the last one first. */
  function Flushes(contexts: seq<Context>): (r: seq<Event>)
    ensures forall e :: e in r ==> e.Flushed?
    decreases |contexts|
  {
    if contexts == [] then [] else
      (if Top(contexts).saveChanges then [Flushed(Top(contexts))] else []) + Flushes(contexts[..|contexts| - 1])
  }

  /** Leaving one context more. */
  lemma {:induction false} FlushesNext(contexts: seq<Context>, k: nat)
    requires k < |contexts|
    ensures Flushes(contexts[k..]) ==
            Flushes(contexts[k + 1..]) + if contexts[k].saveChanges then [Flushed(contexts[k])] else []
    decreases |contexts| - k
  {
    if k + 1 == |contexts| {
      assert contexts[k..] == [contexts[k]] && contexts[k + 1..] == [];
    } else {
      var front := contexts[..|contexts| - 1];
      FlushesNext(front, k);
      assert contexts[k..][..|contexts| - 1 - k] == front[k..] && contexts[k + 1..][..|contexts| - 2 - k] == front[k + 1..];
      assert front[k] == contexts[k];
    }
  }

  /** Running one hook more. */
  lemma RunLast(p: Progress, hooks: seq<Hook>, env: Env)
    requires hooks != [] && Run(p, hooks[..|hooks| - 1], env).Going?
    ensures Run(p, hooks, env) == Step(Run(p, hooks[..|hooks| - 1], env).world, hooks[|hooks| - 1], env)
  {
  }

  /** Leaving the context at `k`, when those above it were left and written. */
  lemma LeaveNext(w: World, k: nat, env: Env)
    requires k < |w.stack|
    ensures Step(w.(stack := w.stack[..k + 1], trace := w.trace + Flushes(w.stack[k + 1..])), DatabasePost, env) ==
            Going(w.(stack := w.stack[..k], trace := w.trace + Flushes(w.stack[k..])))
  {
    FlushesNext(w.stack, k);
    assert w.stack[..k + 1][..k] == w.stack[..k] && Top(w.stack[..k + 1]) == w.stack[k];
    ConcatAssociates(w.trace, Flushes(w.stack[k + 1..]), if w.stack[k].saveChanges then [Flushed(w.stack[k])] else []);
    assert w.trace + Flushes(w.stack[k + 1..]) + [] == w.trace + Flushes(w.stack[k + 1..]);
  }

  lemma {:induction false} RunFlushes(w: World, hooks: seq<Hook>, env: Env)
    requires AllAre(hooks, DatabasePost) && |hooks| <= |w.stack|
    ensures var k := |w.stack| - |hooks|;
            Run(Going(w), hooks, env) == Going(w.(stack := w.stack[..k], trace := w.trace + Flushes(w.stack[k..])))
    decreases |hooks|
  {
    var k := |w.stack| - |hooks|;
    if hooks == [] {
      assert w.stack[..k] == w.stack && w.stack[k..] == [] && w.trace + [] == w.trace;
    } else {
      RunFlushes(w, hooks[..|hooks| - 1], env);
      RunLast(Going(w), hooks, env);
      LeaveNext(w, k, env);
    }
  }

  function Repeated(e: Event, n: nat): seq<Event> {
    seq(n, _ => e)
  }

  /** Every commit hook commits where the command ran, unless the command or a commit failed. */
  lemma {:induction false} RunCommits(w: World, hooks: seq<Hook>, env: Env)
    requires AllAre(hooks, CommitPost) && w.stack != []
    ensures Run(Going(w), hooks, env) ==
            Going(if hooks == [] || w.error.Some? then w
                  else if env.commitRaises then w.(error := Some(CommitFailed))
                  else w.(trace := w.trace + Repeated(Committed(Top(w.stack)), |hooks|)))
    decreases |hooks|
  {
    if hooks != [] {
      RunCommits(w, hooks[..|hooks| - 1], env);
      var commit := Committed(Top(w.stack));
      assert Repeated(commit, |hooks| - 1) + [commit] == Repeated(commit, |hooks|);
      ConcatAssociates(w.trace, Repeated(commit, |hooks| - 1), [commit]);
      assert Repeated(commit, 0) == [];
    }
  }

  lemma {:induction false} RunCommunicators(w: World, hooks: seq<Hook>, env: Env)
    requires AllAre(hooks, CommunicatorPost)
    ensures Run(Going(w), hooks, env) == Going(w)
    decreases |hooks|
  {
    if hooks != [] {
      RunCommunicators(w, hooks[..|hooks| - 1], env);
    }
  }

  /** Isolation hooks leave their contexts, and merge where that leads. */
  lemma {:induction false} RunIsolations(w: World, hooks: seq<Hook>, env: Env)
    requires AllAre(hooks, IsolationPost) && |hooks| < |w.stack|
    requires forall i :: |w.stack| - |hooks| <= i < |w.stack| ==> !w.stack[i].saveChanges
    ensures var r := Run(Going(w), hooks, env);
            && r.Going? && r.world.stack == w.stack[..|w.stack| - |hooks|] && r.world.contextAdded == w.contextAdded
            && r.world.error == (if hooks != [] && env.mergeRaises && w.error.None? then Some(MergeFailed) else w.error)
            && w.trace <= r.world.trace && |r.world.trace| == |w.trace| + (if env.mergeRaises then 0 else |hooks|)
            && (forall i :: |w.trace| <= i < |r.world.trace| ==> r.world.trace[i].Merged?)
            && (|hooks| == 1 && !env.mergeRaises ==> r.world.trace == w.trace + [Merged(Top(r.world.stack))])
    decreases |hooks|
  {
    if hooks != [] {
      RunIsolations(w, hooks[..|hooks| - 1], env);
    }
  }

  // ---------- One execution ----------

  /** The stack once the base has made sure that there is a context. */
  function Start(w: World, env: Env): seq<Context> {
    if w.stack == [] then [Context(env.home, false)] else w.stack
  }

  function BuiltExecution(wrappers: seq<Wrapper>, w: World, env: Env): Progress {
    Execution(w, Ascending(BuiltTable(wrappers, Injection)), Ascending(BuiltTable(wrappers, Pre)),
              Descending(BuiltTable(wrappers, Post)), env)
  }

  /** The contexts that the isolations, and then the databases, push. */
  function Isolated(wrappers: seq<Wrapper>, w: World, env: Env): seq<Context> {
    Pushes(Top(Start(w, env)), Of(wrappers, Injection, 3), env)
  }

  function Opened(wrappers: seq<Wrapper>, w: World, env: Env): seq<Context> {
    Pushes(Top(Start(w, env) + Isolated(wrappers, w, env)), Databases(wrappers), env)
  }

  /** The world when the operation starts. */
  function Entered(wrappers: seq<Wrapper>, w: World, env: Env): World {
    World(Start(w, env) + Isolated(wrappers, w, env) + Opened(wrappers, w, env), w.trace, w.contextAdded || w.stack == [], true, None)
  }

  // ---------- What raises before the operation ----------

  /** The hook that the wrapper registers in this phase raises. */
  ghost predicate HookRaises(w: Wrapper, phase: Phase, env: Env) {
    Registered(w, phase).Some? && CanRaise(Registered(w, phase).value.hook) && env.raises(Registered(w, phase).value.hook)
  }

  ghost predicate SomeRaises(wrappers: seq<Wrapper>, phase: Phase, env: Env) {
    exists i :: 0 <= i < |wrappers| && HookRaises(wrappers[i], phase, env)
  }

  /** A registered injection or pre hook raises. */
  ghost predicate SomeHookRaises(wrappers: seq<Wrapper>, env: Env) {
    SomeRaises(wrappers, Injection, env) || SomeRaises(wrappers, Pre, env)
  }

  ghost predicate RaisesAt(wrappers: seq<Wrapper>, phase: Phase, order: nat, env: Env) {
    exists i :: 0 <= i < |wrappers| && HookRaises(wrappers[i], phase, env) && Registered(wrappers[i], phase).value.order == order
  }

  lemma RaisesAtFirst(wrappers: seq<Wrapper>, phase: Phase, order: nat, env: Env)
    requires wrappers != []
    ensures RaisesAt(wrappers, phase, order, env) <==>
            OneRaises(OneOf(wrappers[0], phase, order), env) || RaisesAt(wrappers[1..], phase, order, env)
  {
    if i :| 0 <= i < |wrappers[1..]| && HookRaises(wrappers[1..][i], phase, env)
            && Registered(wrappers[1..][i], phase).value.order == order {
      assert wrappers[i + 1] == wrappers[1..][i];
    }
    if i :| 0 < i < |wrappers| && HookRaises(wrappers[i], phase, env) && Registered(wrappers[i], phase).value.order == order {
      assert wrappers[1..][i - 1] == wrappers[i];
    }
    var first := OneOf(wrappers[0], phase, order);
    if first != [] {
      assert first == [Registered(wrappers[0], phase).value.hook] && first[0] == Registered(wrappers[0], phase).value.hook;
    }
  }

  lemma {:induction false} OfRaises(wrappers: seq<Wrapper>, phase: Phase, order: nat, env: Env)
    ensures OneRaises(Of(wrappers, phase, order), env) <==> RaisesAt(wrappers, phase, order, env)
  {
    if wrappers != [] {
      OfRaises(wrappers[1..], phase, order, env);
      RaisesAtFirst(wrappers, phase, order, env);
      OneRaisesTogether(OneOf(wrappers[0], phase, order), Of(wrappers[1..], phase, order), env);
    }
  }

  lemma RaisesAtItsOrder(wrappers: seq<Wrapper>, phase: Phase, env: Env) returns (order: nat)
    requires SomeRaises(wrappers, phase, env)
    ensures RaisesAt(wrappers, phase, order, env)
    ensures if phase.Injection? then order in {3, 4} else if phase.Pre? then order in {2, 3, 4, 5} else false
  {
    var i :| 0 <= i < |wrappers| && HookRaises(wrappers[i], phase, env);
    order := Registered(wrappers[i], phase).value.order;
  }

  lemma RaisesAtIsSome(wrappers: seq<Wrapper>, phase: Phase, order: nat, env: Env)
    ensures OneRaises(Of(wrappers, phase, order), env) <==> RaisesAt(wrappers, phase, order, env)
    ensures RaisesAt(wrappers, phase, order, env) ==> SomeRaises(wrappers, phase, env)
  {
    OfRaises(wrappers, phase, order, env);
    if RaisesAt(wrappers, phase, order, env) {
      var i :| 0 <= i < |wrappers| && HookRaises(wrappers[i], phase, env) && Registered(wrappers[i], phase).value.order == order;
      assert SomeRaises(wrappers, phase, env);
    }
  }

  lemma InjectionRaises(wrappers: seq<Wrapper>, env: Env)
    ensures SomeRaises(wrappers, Injection, env) <==> OneRaises(Of(wrappers, Injection, 3), env) || OneRaises(Databases(wrappers), env)
  {
    RaisesAtIsSome(wrappers, Injection, 3, env);
    RaisesAtIsSome(wrappers, Injection, 4, env);
    if SomeRaises(wrappers, Injection, env) {
      var order := RaisesAtItsOrder(wrappers, Injection, env);
      RaisesAtIsSome(wrappers, Injection, order, env);
    }
  }

  lemma WrappedRaises(wrappers: seq<Wrapper>, env: Env)
    ensures OneRaises(Wrapped(wrappers), env) <==>
            OneRaises(Of(wrappers, Pre, 2), env) || OneRaises(Of(wrappers, Pre, 3), env) ||
            OneRaises(Of(wrappers, Pre, 4), env) || OneRaises(Of(wrappers, Pre, 5), env)
  {
    var two, three, four, five := Of(wrappers, Pre, 2), Of(wrappers, Pre, 3), Of(wrappers, Pre, 4), Of(wrappers, Pre, 5);
    OneRaisesTogether(two, three + (four + five), env);
    OneRaisesTogether(three, four + five, env);
    OneRaisesTogether(four, five, env);
  }

  lemma PreRaises(wrappers: seq<Wrapper>, env: Env)
    ensures SomeRaises(wrappers, Pre, env) <==> OneRaises(Wrapped(wrappers), env)
  {
    WrappedRaises(wrappers, env);
    RaisesAtIsSome(wrappers, Pre, 2, env);
    RaisesAtIsSome(wrappers, Pre, 3, env);
    RaisesAtIsSome(wrappers, Pre, 4, env);
    RaisesAtIsSome(wrappers, Pre, 5, env);
    if SomeRaises(wrappers, Pre, env) {
      var order := RaisesAtItsOrder(wrappers, Pre, env);
      RaisesAtIsSome(wrappers, Pre, order, env);
    }
  }

  lemma SomeHookRaisesIff(wrappers: seq<Wrapper>, env: Env)
    ensures SomeHookRaises(wrappers, env) <==>
            OneRaises(Of(wrappers, Injection, 3), env) || OneRaises(Databases(wrappers), env) || OneRaises(Wrapped(wrappers), env)
  {
    InjectionRaises(wrappers, env);
    PreRaises(wrappers, env);
  }

  // ---------- Up to the operation ----------

  /** The world that the injection hooks leave. */
  function Injected(wrappers: seq<Wrapper>, w: World, env: Env): World {
    Entered(wrappers, w, env).(hasExitStack := false)
  }

  lemma InjectedIs(wrappers: seq<Wrapper>, w: World, env: Env)
    ensures Run(Going(w.(hasExitStack := false, error := None)), Ascending(BuiltTable(wrappers, Injection)), env) ==
            if OneRaises(Of(wrappers, Injection, 3), env) || OneRaises(Databases(wrappers), env) then Crashed
            else Going(Injected(wrappers, w, env))
  {
    var isolations, databases := Of(wrappers, Injection, 3), Databases(wrappers);
    BuiltInjections(wrappers);
    OfIsolations(wrappers);
    OfDatabases(wrappers);
    var w0 := w.(hasExitStack := false, error := None);
    var based := Run(Going(w0), [BaseInjection], env);
    assert [BaseInjection][..0] == [] && based == Going(w0.(stack := Start(w, env), contextAdded := w.contextAdded || w.stack == []));
    RunMore(Going(w0), [BaseInjection], isolations + databases, env);
    RunMore(based, isolations, databases, env);
    RunPushes(based.world, isolations, env);
    var isolated := Run(based, isolations, env);
    if isolated.Crashed? {
      RunStopped(isolated, databases, env);
    } else {
      RunPushes(isolated.world, databases, env);
    }
  }

  lemma RunsBasePre(w: World, more: seq<Hook>, env: Env)
    ensures Run(Going(w), [BasePre] + more, env) == Run(Going(w.(hasExitStack := true)), more, env)
  {
    RunMore(Going(w), [BasePre], more, env);
    assert [BasePre][..0] == [];
  }

  lemma RunsPres(wrappers: seq<Wrapper>, w: World, env: Env)
    requires w.stack != []
    ensures Run(Going(w), Ascending(BuiltTable(wrappers, Pre)), env) ==
            if OneRaises(Wrapped(wrappers), env) then Crashed else Going(w.(hasExitStack := true))
  {
    BuiltPres(wrappers);
    var pre := Wrapped(wrappers);
    RunsBasePre(w, pre, env);
    RunPres(w.(hasExitStack := true), pre, env);
  }

  /** The operation is reached exactly if no injection or pre hook raises. */
  lemma PreparedIs(wrappers: seq<Wrapper>, w: World, env: Env)
    ensures Prepared(w, Ascending(BuiltTable(wrappers, Injection)), Ascending(BuiltTable(wrappers, Pre)), env) ==
            if SomeHookRaises(wrappers, env) then Crashed else Going(Entered(wrappers, w, env))
  {
    SomeHookRaisesIff(wrappers, env);
    InjectedIs(wrappers, w, env);
    if OneRaises(Of(wrappers, Injection, 3), env) || OneRaises(Databases(wrappers), env) {
      RunStopped(Crashed, Ascending(BuiltTable(wrappers, Pre)), env);
    } else {
      RunsPres(wrappers, Injected(wrappers, w, env), env);
    }
  }

  /** The commits that the commit wrappers make; all of them in the innermost isolation. */
  function Commits(wrappers: seq<Wrapper>, w: World, env: Env): seq<Event> {
    if !env.operation.Succeeds? || env.commitRaises then []
    else Repeated(Committed(Top(Start(w, env) + Isolated(wrappers, w, env))), |Of(wrappers, Post, 4)|)
  }

  ghost predicate AreMerges(events: seq<Event>, wrappers: seq<Wrapper>, w: World, env: Env) {
    && (forall i :: 0 <= i < |events| ==> events[i].Merged?)
    && |events| == (if env.mergeRaises then 0 else Isolations(wrappers))
    && (Isolations(wrappers) == 1 && !env.mergeRaises ==> events == [Merged(Top(Start(w, env)))])
  }

  lemma IsolatedAre(wrappers: seq<Wrapper>, w: World, env: Env)
    ensures |Isolated(wrappers, w, env)| == Isolations(wrappers)
    ensures forall i :: 0 <= i < Isolations(wrappers) ==> Isolated(wrappers, w, env)[i] == Context(env.worktree, false)
  {
    OfIsolations(wrappers);
    PushedIsolations(Top(Start(w, env)), Of(wrappers, Injection, 3), env);
  }

  lemma {:induction false} PushedIsolations(top: Context, hooks: seq<Hook>, env: Env)
    requires AllAre(hooks, IsolationInjection)
    ensures forall i :: 0 <= i < |hooks| ==> Pushes(top, hooks, env)[i] == Context(env.worktree, false)
    decreases |hooks|
  {
    if hooks != [] {
      PushedIsolations(top, hooks[..|hooks| - 1], env);
    }
  }

  /** The world before the post hook of the base: the contexts are left, and everything is written in order. */
  ghost predicate IsLeft(v: World, wrappers: seq<Wrapper>, w: World, env: Env) {
    && v.stack == Start(w, env) && v.contextAdded == (w.contextAdded || w.stack == [])
    && (v.error.None? <==> env.operation.Succeeds? && (env.commitRaises ==> Of(wrappers, Post, 4) == [])
                           && (env.mergeRaises ==> Isolations(wrappers) == 0))
    && exists merges :: AreMerges(merges, wrappers, w, env)
                     && v.trace == w.trace + Flushes(Opened(wrappers, w, env)) + Commits(wrappers, w, env) + merges
  }

  /** The world when the operation has ended. */
  function Operated(wrappers: seq<Wrapper>, w: World, env: Env): World {
    Entered(wrappers, w, env).(error := if env.operation.Succeeds? then None else Some(OperationFailed))
  }

  /** The world after the commits: the databases are written, and the isolations are still entered. */
  function AfterCommits(wrappers: seq<Wrapper>, w: World, env: Env): World {
    World(Start(w, env) + Isolated(wrappers, w, env),
          w.trace + Flushes(Opened(wrappers, w, env)) + Commits(wrappers, w, env),
          w.contextAdded || w.stack == [], true,
          if !env.operation.Succeeds? then Some(OperationFailed)
          else if env.commitRaises && Of(wrappers, Post, 4) != [] then Some(CommitFailed)
          else None)
  }

  lemma FlushesAll(w: World, inside: seq<Context>, databases: seq<Context>, hooks: seq<Hook>, env: Env)
    requires w.stack == inside + databases && AllAre(hooks, DatabasePost) && |hooks| == |databases|
    ensures Run(Going(w), hooks, env) == Going(w.(stack := inside, trace := w.trace + Flushes(databases)))
  {
    assert w.stack[..|inside|] == inside && w.stack[|inside|..] == databases;
    RunFlushes(w, hooks, env);
  }

  lemma FlushThenCommit(wrappers: seq<Wrapper>, w: World, env: Env)
    ensures Run(Run(Going(Operated(wrappers, w, env)), Of(wrappers, Post, 5), env), Of(wrappers, Post, 4), env) ==
            Going(AfterCommits(wrappers, w, env))
  {
    OfPosts(wrappers);
    var w1 := Operated(wrappers, w, env);
    var inside, databases := Start(w, env) + Isolated(wrappers, w, env), Opened(wrappers, w, env);
    FlushesAll(w1, inside, databases, Of(wrappers, Post, 5), env);
    var w2 := w1.(stack := inside, trace := w1.trace + Flushes(databases));
    RunCommits(w2, Of(wrappers, Post, 4), env);
    assert w2.trace + [] == w2.trace;
  }

  /** The isolations are left, and merge where the command was started. */
  lemma LeavesIsolations(wrappers: seq<Wrapper>, w: World, env: Env)
    ensures var w3 := AfterCommits(wrappers, w, env);
            var r := Run(Going(w3), Of(wrappers, Post, 3), env);
            && r.Going? && r.world.stack == Start(w, env) && r.world.contextAdded == w3.contextAdded
            && r.world.error == (if Isolations(wrappers) > 0 && env.mergeRaises && w3.error.None? then Some(MergeFailed) else w3.error)
            && exists merges :: AreMerges(merges, wrappers, w, env) && r.world.trace == w3.trace + merges
  {
    OfPosts(wrappers);
    IsolatedAre(wrappers, w, env);
    var w3 := AfterCommits(wrappers, w, env);
    RunIsolations(w3, Of(wrappers, Post, 3), env);
    var w4 := Run(Going(w3), Of(wrappers, Post, 3), env).world;
    assert w4.stack == Start(w, env);
    MergedPart(w3.trace, w4.trace, wrappers, w, env);
  }

  lemma ThenMerge(wrappers: seq<Wrapper>, w: World, env: Env)
    ensures var r := Run(Run(Going(AfterCommits(wrappers, w, env)), Of(wrappers, Post, 3), env), Of(wrappers, Post, 2), env);
            r.Going? && IsLeft(r.world, wrappers, w, env)
  {
    OfPosts(wrappers);
    LeavesIsolations(wrappers, w, env);
    var w4 := Run(Going(AfterCommits(wrappers, w, env)), Of(wrappers, Post, 3), env).world;
    RunCommunicators(w4, Of(wrappers, Post, 2), env);
  }

  lemma MergedPart(before: seq<Event>, after: seq<Event>, wrappers: seq<Wrapper>, w: World, env: Env)
    requires before <= after && |after| == |before| + (if env.mergeRaises then 0 else Isolations(wrappers))
    requires forall i :: |before| <= i < |after| ==> after[i].Merged?
    requires Isolations(wrappers) == 1 && !env.mergeRaises ==> after == before + [Merged(Top(Start(w, env)))]
    ensures exists merges :: AreMerges(merges, wrappers, w, env) && after == before + merges
  {
    var merges := after[|before|..];
    assert after == before + merges;
    assert AreMerges(merges, wrappers, w, env);
  }

  /** The post hook of the base leaves the context that its injection hook entered, or one that it takes for it. */
  lemma BasePostEnds(v: World, w: World, env: Env)
    requires v.stack == Start(w, env) && v.contextAdded == (w.contextAdded || w.stack == [])
    ensures var r := Step(v, BasePost, env);
            && !r.Crashed? && r.world.error == v.error && (r.Stopped? <==> v.error.Some?)
            && ((w.contextAdded ==> w.stack == []) ==> r.world.stack == w.stack && r.world.trace == v.trace)
            && (w.contextAdded && w.stack != [] ==> |r.world.stack| < |w.stack|)
  {
  }

  /** No error is raised, by the operation, the commits or the merges. */
  predicate AllWell(wrappers: seq<Wrapper>, env: Env) {
    && env.operation.Succeeds? && (env.commitRaises ==> Of(wrappers, Post, 4) == [])
    && (env.mergeRaises ==> Isolations(wrappers) == 0)
  }

  /** The contexts are what they were; the databases were written, then the commits made, then the isolations merged. */
  ghost predicate InOrder(wrappers: seq<Wrapper>, w: World, env: Env, stack: seq<Context>, trace: seq<Event>) {
    && stack == w.stack
    && exists merges :: AreMerges(merges, wrappers, w, env)
         && trace == w.trace + Flushes(Opened(wrappers, w, env)) + Commits(wrappers, w, env) + merges
  }

  /**
   One execution of a freshly built command. Something else than a Renku error is raised exactly if an
   injection or pre hook raises or the operation crashes, from whatever stack it starts. Otherwise
   first the databases are written, then the commits are made in the isolation, and then the
   isolation is merged into where the command was started. The error, if any, is raised at the end.
   */
  lemma ExecutionInOrder(wrappers: seq<Wrapper>, w: World, env: Env)
    requires w.contextAdded ==> w.stack == []
    ensures BuiltExecution(wrappers, w, env).Crashed? <==> SomeHookRaises(wrappers, env) || env.operation.Crashes?
    ensures var r := BuiltExecution(wrappers, w, env);
            !r.Crashed? ==>
              && InOrder(wrappers, w, env, r.world.stack, r.world.trace)
              && (r.Stopped? <==> r.world.error.Some?) && (r.Stopped? <==> !AllWell(wrappers, env))
  {
    BuiltExecutionIs(wrappers, w, env);
    if !SomeHookRaises(wrappers, env) && !env.operation.Crashes? {
      var v := BeforeBasePost(wrappers, w, env);
      BasePostEnds(v, w, env);
    }
  }

  /** The world of a new command. */
  function NewWorld(stack: seq<Context>, trace: seq<Event>): World {
    World(stack, trace, false, false, None)
  }

  /** A new command, built if it has an operation. */
  method MakeAndBuild(wrappers: seq<Wrapper>, hasOperation: bool) returns (command: Command, built: bool)
    ensures fresh(command) && built == hasOperation && command.finalized == built
    ensures built ==> command.injectionPreHooks == BuiltTable(wrappers, Injection)
                      && command.preHooks == BuiltTable(wrappers, Pre) && command.postHooks == BuiltTable(wrappers, Post)
    ensures !command.contextAdded && !command.hasExitStack && command.error.None?
  {
    command := new Command(hasOperation);
    built := command.Build(wrappers);
  }

  /** A built command is executed. */
  method ExecuteBuilt(command: Command, wrappers: seq<Wrapper>, project: ProjectContext, env: Env) returns (p: Ending)
    requires command.finalized && command.injectionPreHooks == BuiltTable(wrappers, Injection)
    requires command.preHooks == BuiltTable(wrappers, Pre) && command.postHooks == BuiltTable(wrappers, Post)
    requires !command.contextAdded && !command.hasExitStack && command.error.None?
    modifies project, command`contextAdded, command`hasExitStack, command`error
    ensures p.RaisedOther? <==> SomeHookRaises(wrappers, env) || env.operation.Crashes?
    ensures !p.RaisedOther? ==>
              && InOrder(wrappers, NewWorld(old(project.stack), old(project.trace)), env, project.stack, project.trace)
              && (p.Finished? <==> AllWell(wrappers, env))
  {
    ghost var w := NewWorld(project.stack, project.trace);
    assert command.State(project) == w;
    p := command.Execute(project, env);
    ghost var now := command.State(project);
    EndsAs(p, wrappers, w, env, now);
    assert now.stack == project.stack && now.trace == project.trace;
  }

  lemma EndsAs(p: Ending, wrappers: seq<Wrapper>, w: World, env: Env, now: World)
    requires w.contextAdded ==> w.stack == []
    requires Agrees(p, BuiltExecution(wrappers, w, env), now)
    ensures p.RaisedOther? <==> SomeHookRaises(wrappers, env) || env.operation.Crashes?
    ensures !p.RaisedOther? ==> InOrder(wrappers, w, env, now.stack, now.trace) && (p.Finished? <==> AllWell(wrappers, env))
  {
    ExecutionInOrder(wrappers, w, env);
    AgreesOnEnd(p, BuiltExecution(wrappers, w, env), now);
  }

  lemma AgreesOnEnd(p: Ending, r: Progress, w: World)
    requires Agrees(p, r, w)
    ensures p.RaisedOther? <==> r.Crashed?
    ensures !p.RaisedOther? ==> w == r.world && (p.Finished? <==> !r.Stopped?)
  {
  }

  /**
   A command that is made, built and executed. Something else than a Renku error is raised exactly if it
   has no operation, an injection or pre hook raises, or the operation crashes. Otherwise the
   contexts are what they were, and the databases were written, the commits made and the isolations
   merged, in this order.
   */
  method BuildAndExecute(wrappers: seq<Wrapper>, hasOperation: bool, project: ProjectContext, env: Env) returns (p: Ending)
    modifies project
    ensures p.RaisedOther? <==> !hasOperation || SomeHookRaises(wrappers, env) || env.operation.Crashes?
    ensures !hasOperation ==> project.stack == old(project.stack) && project.trace == old(project.trace)
    ensures !p.RaisedOther? ==>
              && InOrder(wrappers, NewWorld(old(project.stack), old(project.trace)), env, project.stack, project.trace)
              && (p.Finished? <==> AllWell(wrappers, env))
  {
    var command, built := MakeAndBuild(wrappers, hasOperation);
    if !built {
      return RaisedOther;
    }
    p := ExecuteBuilt(command, wrappers, project, env);
  }

  /** The stack ends as it began exactly if no context was left over from an earlier execution, or there is none to take for it. */
  lemma StackIsBalancedIff(wrappers: seq<Wrapper>, w: World, env: Env)
    ensures var r := BuiltExecution(wrappers, w, env);
            if SomeHookRaises(wrappers, env) || env.operation.Crashes? then r.Crashed?
            else !r.Crashed? && (r.world.stack == w.stack <==> (w.contextAdded ==> w.stack == []))
  {
    BuiltExecutionIs(wrappers, w, env);
    if !SomeHookRaises(wrappers, env) && !env.operation.Crashes? {
      var v := BeforeBasePost(wrappers, w, env);
      BasePostEnds(v, w, env);
    }
  }

  lemma BeforeBasePost(wrappers: seq<Wrapper>, w: World, env: Env) returns (v: World)
    requires !SomeHookRaises(wrappers, env) && !env.operation.Crashes?
    ensures IsLeft(v, wrappers, w, env) && BuiltExecution(wrappers, w, env) == Step(v, BasePost, env)
  {
    var flushes, commits := Of(wrappers, Post, 5), Of(wrappers, Post, 4);
    var merges, communicators := Of(wrappers, Post, 3), Of(wrappers, Post, 2);
    BuiltExecutionIs(wrappers, w, env);
    BuiltPosts(wrappers);
    RunFive(Operated(wrappers, w, env), flushes, commits, merges, communicators, env);
    FlushThenCommit(wrappers, w, env);
    ThenMerge(wrappers, w, env);
    v := Run(Run(Going(AfterCommits(wrappers, w, env)), merges, env), communicators, env).world;
  }

  lemma ExecutionContinues(w: World, injection: seq<Hook>, pre: seq<Hook>, post: seq<Hook>, env: Env, p: Progress)
    requires p == Prepared(w, injection, pre, env)
    ensures Execution(w, injection, pre, post, env) ==
            if p.Going? then Run(Operate(p.world, env), post, env) else Run(p, post, env)
  {
  }

  lemma OperationEnds(wrappers: seq<Wrapper>, w: World, env: Env)
    ensures Operate(Entered(wrappers, w, env), env) ==
            if env.operation.Crashes? then Crashed else Going(Operated(wrappers, w, env))
  {
  }

  /** The post hooks run exactly if no hook before raises and the operation does not crash. */
  lemma BuiltExecutionIs(wrappers: seq<Wrapper>, w: World, env: Env)
    ensures BuiltExecution(wrappers, w, env) ==
            if SomeHookRaises(wrappers, env) || env.operation.Crashes? then Crashed
            else Run(Going(Operated(wrappers, w, env)), Descending(BuiltTable(wrappers, Post)), env)
  {
    var injection, pre := Ascending(BuiltTable(wrappers, Injection)), Ascending(BuiltTable(wrappers, Pre));
    var post := Descending(BuiltTable(wrappers, Post));
    PreparedIs(wrappers, w, env);
    OperationEnds(wrappers, w, env);
    RunStopped(Crashed, post, env);
    ExecutionContinues(w, injection, pre, post, env,
                       if SomeHookRaises(wrappers, env) then Crashed else Going(Entered(wrappers, w, env)));
  }

  lemma RunFive(w: World, a: seq<Hook>, b: seq<Hook>, c: seq<Hook>, d: seq<Hook>, env: Env)
    ensures Run(Going(w), a + (b + (c + (d + [BasePost]))), env) ==
            Run(Run(Run(Run(Run(Going(w), a, env), b, env), c, env), d, env), [BasePost], env)
  {
    var p := Going(w);
    RunMore(p, a, b + (c + (d + [BasePost])), env);
    RunMore(Run(p, a, env), b, c + (d + [BasePost]), env);
    RunMore(Run(Run(p, a, env), b, env), c, d + [BasePost], env);
    RunMore(Run(Run(Run(p, a, env), b, env), c, env), d, [BasePost], env);
  }

  function Writers(contexts: seq<Context>): set<nat> {
    set i: nat | i < |contexts| && contexts[i].saveChanges
  }

  lemma WritersSnoc(contexts: seq<Context>)
    requires contexts != []
    ensures var n := |contexts| - 1;
            n !in Writers(contexts[..n]) && Writers(contexts) == Writers(contexts[..n]) + if contexts[n].saveChanges then {n} else {}
  {
  }

  /** Every context that saves changes is written once when it is left. */
  lemma {:induction false} WritersAreFlushed(contexts: seq<Context>)
    ensures |Flushes(contexts)| == |Writers(contexts)|
    ensures forall i :: i in Writers(contexts) ==> Flushed(contexts[i]) in Flushes(contexts)
    decreases |contexts|
  {
    if contexts != [] {
      WritersAreFlushed(contexts[..|contexts| - 1]);
      WritersSnoc(contexts);
    }
  }

  /** The contexts that save changes are those of the database commands that write. */
  lemma {:induction false} PushesWrite(top: Context, hooks: seq<Hook>, env: Env)
    requires forall i :: 0 <= i < |hooks| ==> hooks[i].DatabaseInjection?
    ensures forall i :: 0 <= i < |hooks| ==> Pushes(top, hooks, env)[i].saveChanges == hooks[i].write
    decreases |hooks|
  {
    if hooks != [] {
      PushesWrite(top, hooks[..|hooks| - 1], env);
    }
  }

  /** A build that failed for want of an operation has registered the hooks of the wrappers; a second one registers them again. */
  lemma RetriedBuildDoubles(wrappers: seq<Wrapper>, phase: Phase, order: nat)
    requires order != 1
    ensures var table := AppendedAll(AppendedAll(map[], BuiltBy(wrappers, false, phase)), BuiltBy(wrappers, true, phase));
            At(table, order) == Of(wrappers, phase, order) + Of(wrappers, phase, order)
  {
    var failed, built := BuiltBy(wrappers, false, phase), BuiltBy(wrappers, true, phase);
    assert failed == RegisteredByAll(wrappers, phase);
    AppendedTogether(map[], failed, built);
    TableHolds(failed + built, order);
    WithOrderTogether(failed, built, order);
    WithOrderTogether(RegisteredByAll(wrappers, phase), RegisteredByBase(phase), order);
    OfIsWithOrder(wrappers, phase, order);
    assert RegisteredByBase(phase) == [Registration(1, BaseHook(phase))];
    WithOrderOfOne(Registration(1, BaseHook(phase)), order);
  }
}
