/** Command builders: registering hooks, and executing a command between its hooks. */
module Commands {
  import opened Common

  // ---------- Hooks and what they do ----------

  datatype Hook =
    | BaseInjection | IsolationInjection | DatabaseInjection(write: bool, path: Option<string>)
    | BasePre | CommunicatorPre | MigrationPre | CommitPre | CleanPre | LockPre
    | BasePost | CommunicatorPost | IsolationPost | CommitPost | DatabasePost

  /** A context on the stack: a project path, and whether leaving it writes the database. */
  datatype Context = Context(path: string, saveChanges: bool)

  /** What a reader of the repository can see: the database written, a git commit, the worktree merged. */
  datatype Event = Flushed(left: Context) | Committed(at: Context) | Merged(at: Context)

  datatype Error = CommitFailed | MergeFailed | NoContext | OperationFailed

  datatype World = World(stack: seq<Context>, trace: seq<Event>, contextAdded: bool, hasExitStack: bool, error: Option<Error>)

  datatype OperationResult = Succeeds | RaisesRenku | Crashes

  /** Everything that is decided outside. */
  datatype Env = Env(home: string, worktree: string, raises: Hook -> bool, operation: OperationResult,
                     commitRaises: bool, mergeRaises: bool)

  /** Going on, stopped by raising the result's error at the end, or left by another exception. */
  datatype Progress = Going(world: World) | Stopped(world: World) | Crashed

  function Top(stack: seq<Context>): Context
    requires stack != []
  {
    stack[|stack| - 1]
  }

  function Popped(w: World): Progress {
    if w.stack == [] then Crashed
    else Going(w.(stack := w.stack[..|w.stack| - 1],
                  trace := if Top(w.stack).saveChanges then w.trace + [Flushed(Top(w.stack))] else w.trace))
  }

  function FirstError(w: World, e: Error): World {
    w.(error := if w.error.Some? then w.error else Some(e))
  }

  function Step(w: World, h: Hook, env: Env): Progress {
    match h
    case BaseInjection =>
      Going(if w.stack == [] then w.(stack := [Context(env.home, false)], contextAdded := true) else w)
    case IsolationInjection =>
      if w.stack == [] || env.raises(h) then Crashed
      else Going(w.(stack := w.stack + [Context(env.worktree, false)]))
    case DatabaseInjection(write, path) =>
      if w.stack == [] || env.raises(h) then Crashed
      else Going(w.(stack := w.stack + [Context(if path.Some? then path.value else Top(w.stack).path, write)]))
    case BasePre => Going(w.(hasExitStack := true))
    case CommitPre => if !w.hasExitStack || env.raises(h) then Crashed else Going(w)
    case LockPre => if !w.hasExitStack || env.raises(h) then Crashed else Going(w)
    case CleanPre => if w.stack == [] || env.raises(h) then Crashed else Going(w)
    case CommunicatorPre => Going(w)
    case MigrationPre => if env.raises(h) then Crashed else Going(w)
    case DatabasePost => Popped(w)
    case CommitPost =>
      Going(if w.error.Some? then w
            else if w.stack == [] then FirstError(w, NoContext)
            else if env.commitRaises then FirstError(w, CommitFailed)
            else w.(trace := w.trace + [Committed(Top(w.stack))]))
    case IsolationPost =>
      var popped := Popped(w);
      if popped.Crashed? then Crashed
      else if popped.world.stack == [] then Going(FirstError(popped.world, NoContext))
      else if env.mergeRaises then Going(FirstError(popped.world, MergeFailed))
      else Going(popped.world.(trace := popped.world.trace + [Merged(Top(popped.world.stack))]))
    case CommunicatorPost => Going(w)
    case BasePost =>
      var left := if w.contextAdded then Popped(w) else Going(w);
      if left.Going? && left.world.error.Some? then Stopped(left.world) else left
  }

  /** The hooks one after the other, as long as nothing is raised. */
  function Run(p: Progress, hooks: seq<Hook>, env: Env): Progress
    decreases |hooks|
  {
    if hooks == [] then p else
      var before := Run(p, hooks[..|hooks| - 1], env);
      if before.Going? then Step(before.world, hooks[|hooks| - 1], env) else before
  }

  function Operate(w: World, env: Env): Progress {
    if !w.hasExitStack || env.operation.Crashes? then Crashed
    else Going(if env.operation.Succeeds? then w else w.(error := Some(OperationFailed)))
  }

  /** `execute` until the operation. */
  function Prepared(w: World, injection: seq<Hook>, pre: seq<Hook>, env: Env): Progress {
    Run(Run(Going(w.(hasExitStack := false, error := None)), injection, env), pre, env)
  }

  /** `execute`, given the hooks in the order in which they run. */
  function Execution(w: World, injection: seq<Hook>, pre: seq<Hook>, post: seq<Hook>, env: Env): Progress {
    var ready := Prepared(w, injection, pre, env);
    Run(if ready.Going? then Operate(ready.world, env) else ready, post, env)
  }

  // ---------- Builders ----------

  datatype Wrapper = Communicator | RequireMigration | Isolation | Commit | RequireClean
                   | DatabaseCommand(write: bool, path: Option<string>) | ProjectLock

  datatype Phase = Injection | Pre | Post

  datatype Registration = Registration(order: nat, hook: Hook)

  /** What `build` of a wrapper registers in each phase. */
  function Registered(w: Wrapper, phase: Phase): Option<Registration> {
    match (w, phase)
    case (Communicator, Pre) => Some(Registration(2, CommunicatorPre))
    case (Communicator, Post) => Some(Registration(2, CommunicatorPost))
    case (RequireMigration, Pre) => Some(Registration(3, MigrationPre))
    case (Isolation, Injection) => Some(Registration(3, IsolationInjection))
    case (Isolation, Post) => Some(Registration(3, IsolationPost))
    case (Commit, Pre) => Some(Registration(4, CommitPre))
    case (Commit, Post) => Some(Registration(4, CommitPost))
    case (RequireClean, Pre) => Some(Registration(4, CleanPre))
    case (DatabaseCommand(write, path), Injection) => Some(Registration(4, DatabaseInjection(write, path)))
    case (DatabaseCommand(_, _), Post) => Some(Registration(5, DatabasePost))
    case (ProjectLock, Pre) => Some(Registration(5, LockPre))
    case _ => None
  }

  function RegisteredBy(w: Wrapper, phase: Phase): seq<Registration> {
    match Registered(w, phase)
    case Some(r) => [r]
    case None => []
  }

  function RegisteredByBase(phase: Phase): seq<Registration> {
    match phase
    case Injection => [Registration(1, BaseInjection)]
    case Pre => [Registration(1, BasePre)]
    case Post => [Registration(1, BasePost)]
  }

  /** What a chain of wrappers registers, outermost first. */
  function RegisteredByAll(wrappers: seq<Wrapper>, phase: Phase): seq<Registration> {
    if wrappers == [] then [] else RegisteredBy(wrappers[0], phase) + RegisteredByAll(wrappers[1..], phase)
  }

  type Table = map<nat, seq<Hook>>

  function Appended(table: Table, r: Registration): Table {
    table[r.order := (if r.order in table then table[r.order] else []) + [r.hook]]
  }

  function AppendedAll(table: Table, rs: seq<Registration>): Table
    decreases |rs|
  {
    if rs == [] then table else Appended(AppendedAll(table, rs[..|rs| - 1]), rs[|rs| - 1])
  }

  lemma {:induction false} AppendedTogether(table: Table, rs: seq<Registration>, ss: seq<Registration>)
    ensures AppendedAll(AppendedAll(table, rs), ss) == AppendedAll(table, rs + ss)
    decreases |ss|
  {
    if ss == [] {
      assert rs + ss == rs;
    } else {
      AppendedTogether(table, rs, ss[..|ss| - 1]);
      assert (rs + ss)[..|rs + ss| - 1] == rs + ss[..|ss| - 1];
    }
  }

  // ---------- Running in order ----------

  /** `sorted(orders)`. */
  function SortedOrders(s: set<nat>): (r: seq<nat>)
    ensures forall k :: k in r <==> k in s
    ensures forall i, j :: 0 <= i < j < |r| ==> r[i] < r[j]
  {
    if s == {} then [] else
      var k := Greatest(s);
      SortedOrders(s - {k}) + [k]
  }

  function Greatest(s: set<nat>): (k: nat)
    requires s != {}
    ensures k in s && forall j :: j in s ==> j <= k
  {
    GreatestExists(s);
    var k :| k in s && forall j :: j in s ==> j <= k;
    k
  }

  lemma {:induction false} GreatestExists(s: set<nat>)
    requires s != {}
    ensures exists k :: k in s && forall j :: j in s ==> j <= k
  {
    var x :| x in s;
    var rest := s - {x};
    if rest == {} {
      assert s == {x};
    } else {
      GreatestExists(rest);
      var k :| k in rest && forall j :: j in rest ==> j <= k;
      OneOrRest(s, x);
      if k < x {
        assert x in s && forall j :: j in s ==> j <= x;
      } else {
        assert k in s && forall j :: j in s ==> j <= k;
      }
    }
  }

  lemma OneOrRest(s: set<nat>, x: nat)
    ensures forall j :: j in s ==> j == x || j in s - {x}
  {
  }

  function Reversed<T>(s: seq<T>): (r: seq<T>)
    ensures |r| == |s| && forall i :: 0 <= i < |s| ==> r[i] == s[|s| - 1 - i]
  {
    seq(|s|, i requires 0 <= i < |s| => s[|s| - 1 - i])
  }

  /** The hooks of the given orders, one order after the other. */
  function Flatten(table: Table, orders: seq<nat>): seq<Hook>
    requires forall o :: o in orders ==> o in table
    decreases |orders|
  {
    if orders == [] then [] else Flatten(table, orders[..|orders| - 1]) + table[orders[|orders| - 1]]
  }

  function Ascending(table: Table): seq<Hook> {
    Flatten(table, SortedOrders(table.Keys))
  }

  function Descending(table: Table): seq<Hook> {
    Flatten(table, Reversed(SortedOrders(table.Keys)))
  }

  lemma {:induction false} RunMore(p: Progress, hooks: seq<Hook>, more: seq<Hook>, env: Env)
    ensures Run(p, hooks + more, env) == Run(Run(p, hooks, env), more, env)
    decreases |more|
  {
    if more == [] {
      assert hooks + more == hooks;
    } else {
      RunMore(p, hooks, more[..|more| - 1], env);
      assert (hooks + more)[..|hooks + more| - 1] == hooks + more[..|more| - 1];
    }
  }

  // ---------- The objects ----------

  /** The stack of contexts, with what was done to the repository. */
  class ProjectContext {
    var stack: seq<Context>
    var trace: seq<Event>

    method PushPath(path: string, saveChanges: bool)
      modifies this
      ensures stack == old(stack) + [Context(path, saveChanges)] && trace == old(trace)
    {
      stack := stack + [Context(path, saveChanges)];
    }

    /** `pop_context`: writes the database if the context saves changes. */
    method PopContext() returns (ok: bool)
      modifies this
      ensures ok <==> old(stack) != []
      ensures ok ==>
                && stack == old(stack)[..|old(stack)| - 1]
                && trace == old(trace) + if Top(old(stack)).saveChanges then [Flushed(Top(old(stack)))] else []
    {
      if stack == [] {
        return false;
      }
      if Top(stack).saveChanges {
        trace := trace + [Flushed(Top(stack))];
      }
      stack := stack[..|stack| - 1];
      return true;
    }
  }

  datatype Ending = Finished | RaisedError | RaisedOther

  /** The innermost builder, which holds the hooks of all the wrappers around it. */
  class Command {
    var injectionPreHooks: Table
    var preHooks: Table
    var postHooks: Table
    var hasOperation: bool
    var finalized: bool
    var contextAdded: bool
    var hasExitStack: bool
    var error: Option<Error>

    constructor (hasOperation: bool)
      ensures injectionPreHooks == map[] && preHooks == map[] && postHooks == map[]
      ensures this.hasOperation == hasOperation && !finalized && !contextAdded && !hasExitStack && error.None?
    {
      injectionPreHooks, preHooks, postHooks := map[], map[], map[];
      this.hasOperation, finalized, contextAdded, hasExitStack, error := hasOperation, false, false, false, None;
    }

    ghost function State(project: ProjectContext): World
      reads this, project
    {
      World(project.stack, project.trace, contextAdded, hasExitStack, error)
    }

    /** The three `add_..._hook` methods: refused once the command is finalized. */
    method AddHooks(phase: Phase, hooks: seq<Registration>) returns (ok: bool)
      modifies `injectionPreHooks, `preHooks, `postHooks
      ensures ok <==> hooks == [] || !finalized
      ensures injectionPreHooks ==
              if ok && phase.Injection? then AppendedAll(old(injectionPreHooks), hooks) else old(injectionPreHooks)
      ensures preHooks == if ok && phase.Pre? then AppendedAll(old(preHooks), hooks) else old(preHooks)
      ensures postHooks == if ok && phase.Post? then AppendedAll(old(postHooks), hooks) else old(postHooks)
    {
      if finalized {
        return hooks == [];
      }
      ok := true;
      for i := 0 to |hooks|
        invariant injectionPreHooks ==
                  if phase.Injection? then AppendedAll(old(injectionPreHooks), hooks[..i]) else old(injectionPreHooks)
        invariant preHooks == if phase.Pre? then AppendedAll(old(preHooks), hooks[..i]) else old(preHooks)
        invariant postHooks == if phase.Post? then AppendedAll(old(postHooks), hooks[..i]) else old(postHooks)
      {
        assert hooks[..i + 1][..i] == hooks[..i];
        match phase
        case Injection => injectionPreHooks := Appended(injectionPreHooks, hooks[i]);
        case Pre => preHooks := Appended(preHooks, hooks[i]);
        case Post => postHooks := Appended(postHooks, hooks[i]);
      }
      assert hooks[..|hooks|] == hooks;
    }

    /**
     * `build` of a chain of wrappers, outermost first: each registers its hooks and builds the next.
     * If no operation is set this fails, but the hooks of the wrappers stay registered.
     */
    method Build(wrappers: seq<Wrapper>) returns (ok: bool)
      modifies `injectionPreHooks, `preHooks, `postHooks, `finalized
      ensures ok <==> old(!finalized && hasOperation)
      ensures finalized <==> ok || old(finalized)
      ensures !old(finalized) ==>
                && injectionPreHooks == AppendedAll(old(injectionPreHooks), BuiltBy(wrappers, ok, Injection))
                && preHooks == AppendedAll(old(preHooks), BuiltBy(wrappers, ok, Pre))
                && postHooks == AppendedAll(old(postHooks), BuiltBy(wrappers, ok, Post))
      decreases |wrappers|
    {
      if finalized {
        return false;
      }
      if wrappers != [] {
        ghost var injection0, pre0, post0 := injectionPreHooks, preHooks, postHooks;
        RegisterAll(RegisteredBy(wrappers[0], Injection), RegisteredBy(wrappers[0], Pre), RegisteredBy(wrappers[0], Post));
        ok := Build(wrappers[1..]);
        BuiltFromNext(injection0, wrappers, ok, Injection);
        BuiltFromNext(pre0, wrappers, ok, Pre);
        BuiltFromNext(post0, wrappers, ok, Post);
        return;
      }
      if !hasOperation {
        return false;
      }
      RegisterAll(RegisteredByBase(Injection), RegisteredByBase(Pre), RegisteredByBase(Post));
      assert BuiltBy(wrappers, true, Injection) == [] + RegisteredByBase(Injection) == RegisteredByBase(Injection);
      assert BuiltBy(wrappers, true, Pre) == [] + RegisteredByBase(Pre) == RegisteredByBase(Pre);
      assert BuiltBy(wrappers, true, Post) == [] + RegisteredByBase(Post) == RegisteredByBase(Post);
      finalized := true;
      ok := true;
    }

    /** What one builder registers in the three phases. */
    method RegisterAll(injection: seq<Registration>, pre: seq<Registration>, post: seq<Registration>)
      requires !finalized
      modifies `injectionPreHooks, `preHooks, `postHooks
      ensures injectionPreHooks == AppendedAll(old(injectionPreHooks), injection)
      ensures preHooks == AppendedAll(old(preHooks), pre)
      ensures postHooks == AppendedAll(old(postHooks), post)
    {
      var ok := AddHooks(Injection, injection);
      ok := AddHooks(Pre, pre);
      ok := AddHooks(Post, post);
    }

    /** One hook. */
    method RunHook(hook: Hook, project: ProjectContext, env: Env) returns (p: Ending)
      modifies project, `contextAdded, `hasExitStack, `error
      ensures var r := Step(old(State(project)), hook, env);
              match r
              case Going(w) => p.Finished? && State(project) == w
              case Stopped(w) => p.RaisedError? && State(project) == w
              case Crashed => p.RaisedOther?
    {
      match hook
      case BaseInjection =>
        if project.stack == [] {
          project.PushPath(env.home, false);
          contextAdded := true;
        }
        return Finished;
      case IsolationInjection =>
        if project.stack == [] || env.raises(hook) {
          return RaisedOther;
        }
        project.PushPath(env.worktree, false);
        return Finished;
      case DatabaseInjection(write, path) =>
        if project.stack == [] || env.raises(hook) {
          return RaisedOther;
        }
        project.PushPath(if path.Some? then path.value else Top(project.stack).path, write);
        return Finished;
      case BasePre =>
        hasExitStack := true;
        return Finished;
      case CommitPre => return if !hasExitStack || env.raises(hook) then RaisedOther else Finished;
      case LockPre => return if !hasExitStack || env.raises(hook) then RaisedOther else Finished;
      case CleanPre => return if project.stack == [] || env.raises(hook) then RaisedOther else Finished;
      case MigrationPre => return if env.raises(hook) then RaisedOther else Finished;
      case CommunicatorPre => return Finished;
      case CommunicatorPost => return Finished;
      case DatabasePost =>
        var ok := project.PopContext();
        return if ok then Finished else RaisedOther;
      case CommitPost =>
        if error.Some? {
          return Finished;
        }
        if project.stack == [] {
          error := Some(NoContext);
        } else if env.commitRaises {
          error := Some(CommitFailed);
        } else {
          project.trace := project.trace + [Committed(Top(project.stack))];
        }
        return Finished;
      case IsolationPost =>
        var ok := project.PopContext();
        if !ok {
          return RaisedOther;
        }
        if project.stack == [] {
          error := if error.Some? then error else Some(NoContext);
        } else if env.mergeRaises {
          error := if error.Some? then error else Some(MergeFailed);
        } else {
          project.trace := project.trace + [Merged(Top(project.stack))];
        }
        return Finished;
      case BasePost =>
        if contextAdded {
          var ok := project.PopContext();
          if !ok {
            return RaisedOther;
          }
        }
        return if error.Some? then RaisedError else Finished;
    }

    /** The hooks of one order. */
    method RunList(hooks: seq<Hook>, project: ProjectContext, env: Env) returns (p: Ending)
      modifies project, `contextAdded, `hasExitStack, `error
      ensures Agrees(p, Run(Going(old(State(project))), hooks, env), State(project))
    {
      ghost var start := State(project);
      for j := 0 to |hooks|
        invariant Run(Going(start), hooks[..j], env) == Going(State(project))
      {
        assert hooks[..j + 1][..j] == hooks[..j];
        p := RunHook(hooks[j], project, env);
        if !p.Finished? {
          StaysStopped(Going(start), hooks, j + 1, env);
          return;
        }
      }
      assert hooks[..|hooks|] == hooks;
      return Finished;
    }

    /** The hooks of the next order. */
    method RunOrder(table: Table, orders: seq<nat>, i: nat, project: ProjectContext, env: Env, ghost start: World)
      returns (p: Ending)
      requires i < |orders| && forall o :: o in orders ==> o in table
      requires Run(Going(start), Flatten(table, orders[..i]), env) == Going(State(project))
      modifies project, `contextAdded, `hasExitStack, `error
      ensures Agrees(p, Run(Going(start), Flatten(table, orders[..i + 1]), env), State(project))
    {
      FlattenNext(start, table, orders, i, env);
      p := RunList(table[orders[i]], project, env);
    }

    /** The hooks of a table, one order after the other. */
    method RunHooks(table: Table, orders: seq<nat>, project: ProjectContext, env: Env) returns (p: Ending)
      requires forall o :: o in orders ==> o in table
      modifies project, `contextAdded, `hasExitStack, `error
      ensures Agrees(p, Run(Going(old(State(project))), Flatten(table, orders), env), State(project))
    {
      ghost var start := State(project);
      for i := 0 to |orders|
        invariant Run(Going(start), Flatten(table, orders[..i]), env) == Going(State(project))
      {
        p := RunOrder(table, orders, i, project, env, start);
        if !p.Finished? {
          StaysStoppedOrders(Going(start), table, orders, i + 1, env);
          return;
        }
      }
      assert orders[..|orders|] == orders;
      return Finished;
    }

    /** The injection hooks and then the pre hooks. */
    method RunBoth(project: ProjectContext, env: Env) returns (p: Ending)
      modifies project, `contextAdded, `hasExitStack, `error
      ensures Agrees(p, Run(Run(Going(old(State(project))), Ascending(injectionPreHooks), env), Ascending(preHooks), env), State(project))
    {
      ghost var injected := Run(Going(State(project)), Ascending(injectionPreHooks), env);
      p := RunHooks(injectionPreHooks, SortedOrders(injectionPreHooks.Keys), project, env);
      if !p.Finished? {
        RunStopped(injected, Ascending(preHooks), env);
        return;
      }
      p := RunHooks(preHooks, SortedOrders(preHooks.Keys), project, env);
    }

    /** `execute` until the operation. */
    method Prepare(project: ProjectContext, env: Env) returns (p: Ending)
      modifies project, `contextAdded, `hasExitStack, `error
      ensures Agrees(p, Prepared(old(State(project)), Ascending(injectionPreHooks), Ascending(preHooks), env), State(project))
    {
      hasExitStack, error := false, None;
      p := RunBoth(project, env);
    }

    /** The operation, within the exit stack. */
    method RunOperation(project: ProjectContext, env: Env) returns (p: Ending)
      modifies `error
      ensures Agrees(p, Operate(old(State(project)), env), State(project))
    {
      if !hasExitStack || env.operation.Crashes? {
        return RaisedOther;
      }
      if env.operation.RaisesRenku? {
        error := Some(OperationFailed);
      }
      return Finished;
    }

    /** `execute`. */
    method Execute(project: ProjectContext, env: Env) returns (p: Ending)
      requires finalized
      modifies project, `contextAdded, `hasExitStack, `error
      ensures Agrees(p, Execution(old(State(project)), Ascending(injectionPreHooks), Ascending(preHooks), Descending(postHooks), env),
                     State(project))
    {
      ghost var prepared := Prepared(State(project), Ascending(injectionPreHooks), Ascending(preHooks), env);
      p := Prepare(project, env);
      if !p.Finished? {
        RunStopped(prepared, Descending(postHooks), env);
        return;
      }
      p := RunOperation(project, env);
      if !p.Finished? {
        RunStopped(Crashed, Descending(postHooks), env);
        return;
      }
      p := RunHooks(postHooks, Reversed(SortedOrders(postHooks.Keys)), project, env);
    }
  }

  lemma FlattenNext(w: World, table: Table, orders: seq<nat>, i: nat, env: Env)
    requires i < |orders| && forall o :: o in orders ==> o in table
    ensures Run(Going(w), Flatten(table, orders[..i + 1]), env) ==
            Run(Run(Going(w), Flatten(table, orders[..i]), env), table[orders[i]], env)
  {
    assert orders[..i + 1][..i] == orders[..i];
    RunMore(Going(w), Flatten(table, orders[..i]), table[orders[i]], env);
  }

  /** Does the way a run ended agree with the outcome that is specified? */
  ghost predicate Agrees(p: Ending, r: Progress, w: World) {
    match r
    case Going(v) => p.Finished? && w == v
    case Stopped(v) => p.RaisedError? && w == v
    case Crashed => p.RaisedOther?
  }

  lemma {:induction false} StaysStopped(p: Progress, hooks: seq<Hook>, n: nat, env: Env)
    requires n <= |hooks| && !Run(p, hooks[..n], env).Going?
    ensures Run(p, hooks, env) == Run(p, hooks[..n], env)
    decreases |hooks|
  {
    if n == |hooks| {
      assert hooks[..n] == hooks;
    } else {
      assert hooks[..|hooks| - 1][..n] == hooks[..n];
      StaysStopped(p, hooks[..|hooks| - 1], n, env);
    }
  }

  lemma {:induction false} StaysStoppedOrders(p: Progress, table: Table, orders: seq<nat>, n: nat, env: Env)
    requires forall o :: o in orders ==> o in table
    requires n <= |orders| && !Run(p, Flatten(table, orders[..n]), env).Going?
    ensures Run(p, Flatten(table, orders), env) == Run(p, Flatten(table, orders[..n]), env)
    decreases |orders|
  {
    if n == |orders| {
      assert orders[..n] == orders;
    } else {
      var front := orders[..|orders| - 1];
      assert front[..n] == orders[..n];
      StaysStoppedOrders(p, table, front, n, env);
      RunMore(p, Flatten(table, front), table[orders[|orders| - 1]], env);
      RunStopped(Run(p, Flatten(table, front), env), table[orders[|orders| - 1]], env);
    }
  }

  lemma {:induction false} RunStopped(p: Progress, hooks: seq<Hook>, env: Env)
    requires !p.Going?
    ensures Run(p, hooks, env) == p
    decreases |hooks|
  {
    if hooks != [] {
      RunStopped(p, hooks[..|hooks| - 1], env);
    }
  }

  /** What building registers; the base builder only once an operation is set. */
  function BuiltBy(wrappers: seq<Wrapper>, complete: bool, phase: Phase): seq<Registration> {
    RegisteredByAll(wrappers, phase) + if complete then RegisteredByBase(phase) else []
  }

  /** The outermost wrapper's hooks, and then those of the rest of the chain. */
  lemma BuiltFromNext(table: Table, wrappers: seq<Wrapper>, complete: bool, phase: Phase)
    requires wrappers != []
    ensures AppendedAll(AppendedAll(table, RegisteredBy(wrappers[0], phase)), BuiltBy(wrappers[1..], complete, phase)) ==
            AppendedAll(table, BuiltBy(wrappers, complete, phase))
  {
    AppendedTogether(table, RegisteredBy(wrappers[0], phase), BuiltBy(wrappers[1..], complete, phase));
    BuiltByNext(wrappers, complete, phase);
  }

  lemma BuiltByNext(wrappers: seq<Wrapper>, complete: bool, phase: Phase)
    requires wrappers != []
    ensures BuiltBy(wrappers, complete, phase) == RegisteredBy(wrappers[0], phase) + BuiltBy(wrappers[1..], complete, phase)
  {
  }
}
