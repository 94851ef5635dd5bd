/** The order in which a built command runs its hooks, and what that does to contexts and repository. */
module CommandOrder {
  import opened Common
  import opened Commands

  // ---------- The order in which the hooks run ----------

  function At(table: Table, order: nat): seq<Hook> {
    if order in table then table[order] else []
  }

  /** Orders 1 to `n`, upwards. */
  function Upwards(table: Table, n: nat): seq<Hook> {
    if n == 0 then [] else Upwards(table, n - 1) + At(table, n)
  }

  /** Orders `n` to 1, downwards. */
  function Downwards(table: Table, n: nat): seq<Hook> {
    if n == 0 then [] else At(table, n) + Downwards(table, n - 1)
  }

  /** Exactly the orders of the table that are at most `n`. */
  ghost predicate AreOrders(table: Table, orders: seq<nat>, n: nat) {
    && 0 !in table
    && (forall o :: o in orders ==> o in table && o <= n)
    && (forall o :: o in table && o <= n ==> o in orders)
  }

  ghost predicate Rises(orders: seq<nat>) {
    forall i, j :: 0 <= i < j < |orders| ==> orders[i] < orders[j]
  }

  ghost predicate Falls(orders: seq<nat>) {
    forall i, j :: 0 <= i < j < |orders| ==> orders[i] > orders[j]
  }

  lemma OrdersBelow(table: Table, orders: seq<nat>, n: nat)
    requires n > 0 && AreOrders(table, orders, n) && n !in table
    ensures AreOrders(table, orders, n - 1)
  {
  }

  lemma LastIsGreatest(table: Table, orders: seq<nat>, n: nat)
    requires n > 0 && AreOrders(table, orders, n) && n in table && Rises(orders)
    ensures orders != [] && orders[|orders| - 1] == n
    ensures AreOrders(table, orders[..|orders| - 1], n - 1) && Rises(orders[..|orders| - 1])
  {
    var i :| 0 <= i < |orders| && orders[i] == n;
    var front := orders[..|orders| - 1];
    assert orders == front + [orders[|orders| - 1]] && orders[|orders| - 1] in orders;
    assert forall o :: o in orders <==> o in front || o == n;
  }

  lemma FirstIsGreatest(table: Table, orders: seq<nat>, n: nat)
    requires n > 0 && AreOrders(table, orders, n) && n in table && Falls(orders)
    ensures orders != [] && orders[0] == n
    ensures AreOrders(table, orders[1..], n - 1) && Falls(orders[1..])
  {
    var i :| 0 <= i < |orders| && orders[i] == n;
    assert orders == [orders[0]] + orders[1..] && orders[0] in orders;
    assert forall o :: o in orders <==> o in orders[1..] || o == n;
  }

  lemma {:induction false} AscendingIsUpwards(table: Table, orders: seq<nat>, n: nat)
    requires AreOrders(table, orders, n) && Rises(orders)
    ensures Flatten(table, orders) == Upwards(table, n)
  {
    if n > 0 {
      if n in table {
        LastIsGreatest(table, orders, n);
        AscendingIsUpwards(table, orders[..|orders| - 1], n - 1);
      } else {
        OrdersBelow(table, orders, n);
        AscendingIsUpwards(table, orders, n - 1);
      }
    }
  }

  lemma {:induction false} FlattenCons(table: Table, orders: seq<nat>)
    requires orders != [] && forall o :: o in orders ==> o in table
    ensures Flatten(table, orders) == table[orders[0]] + Flatten(table, orders[1..])
    decreases |orders|
  {
    if |orders| == 1 {
      assert orders[..0] == [] && orders[1..] == [];
    } else {
      var front, tail, last := orders[..|orders| - 1], orders[1..], orders[|orders| - 1];
      FlattenCons(table, front);
      assert tail[..|tail| - 1] == front[1..] && tail[|tail| - 1] == last;
      ConcatAssociates(table[orders[0]], Flatten(table, front[1..]), table[last]);
    }
  }

  lemma DownwardsNext(table: Table, orders: seq<nat>, n: nat)
    requires n > 0 && orders != [] && orders[0] == n && forall o :: o in orders ==> o in table
    requires (forall o :: o in orders[1..] ==> o in table) && Flatten(table, orders[1..]) == Downwards(table, n - 1)
    ensures Flatten(table, orders) == Downwards(table, n)
  {
    FlattenCons(table, orders);
    assert orders[0] in orders;
  }

  lemma DownwardsSkips(table: Table, n: nat)
    requires n > 0 && n !in table
    ensures Downwards(table, n) == Downwards(table, n - 1)
  {
    assert [] + Downwards(table, n - 1) == Downwards(table, n - 1);
  }

  lemma {:induction false} DescendingIsDownwards(table: Table, orders: seq<nat>, n: nat)
    requires AreOrders(table, orders, n) && Falls(orders)
    ensures Flatten(table, orders) == Downwards(table, n)
  {
    if n > 0 {
      if n in table {
        FirstIsGreatest(table, orders, n);
        DescendingIsDownwards(table, orders[1..], n - 1);
        DownwardsNext(table, orders, n);
      } else {
        OrdersBelow(table, orders, n);
        DescendingIsDownwards(table, orders, n - 1);
        DownwardsSkips(table, n);
      }
    }
  }

  /** The hooks registered for one order, in the order of their registration. */
  function WithOrder(rs: seq<Registration>, order: nat): seq<Hook>
    decreases |rs|
  {
    if rs == [] then [] else
      WithOrder(rs[..|rs| - 1], order) + if rs[|rs| - 1].order == order then [rs[|rs| - 1].hook] else []
  }

  lemma {:induction false} TableHolds(rs: seq<Registration>, order: nat)
    ensures At(AppendedAll(map[], rs), order) == WithOrder(rs, order)
    ensures order in AppendedAll(map[], rs) <==> exists i :: 0 <= i < |rs| && rs[i].order == order
    decreases |rs|
  {
    if rs != [] {
      TableHolds(rs[..|rs| - 1], order);
      assert forall i :: 0 <= i < |rs| - 1 ==> rs[..|rs| - 1][i] == rs[i];
    }
  }

  lemma {:induction false} WithOrderTogether(rs: seq<Registration>, ss: seq<Registration>, order: nat)
    ensures WithOrder(rs + ss, order) == WithOrder(rs, order) + WithOrder(ss, order)
    decreases |ss|
  {
    if ss == [] {
      assert rs + ss == rs;
    } else {
      WithOrderTogether(rs, ss[..|ss| - 1], order);
      assert (rs + ss)[..|rs + ss| - 1] == rs + ss[..|ss| - 1];
    }
  }

  // ---------- What a chain of wrappers registers ----------

  /** The hook that the wrapper registers in one phase, if it is for the given order. */
  function OneOf(w: Wrapper, phase: Phase, order: nat): seq<Hook> {
    match Registered(w, phase)
    case Some(r) => if r.order == order then [r.hook] else []
    case None => []
  }

  /** The hooks that the wrappers register in one phase for one order. */
  function Of(wrappers: seq<Wrapper>, phase: Phase, order: nat): seq<Hook> {
    if wrappers == [] then [] else OneOf(wrappers[0], phase, order) + Of(wrappers[1..], phase, order)
  }

  lemma WithOrderOfOne(r: Registration, order: nat)
    ensures WithOrder([r], order) == if r.order == order then [r.hook] else []
  {
    assert [r][..0] == [];
    assert WithOrder([], order) == [];
  }

  lemma WithOrderOfWrapper(w: Wrapper, phase: Phase, order: nat)
    ensures WithOrder(RegisteredBy(w, phase), order) == OneOf(w, phase, order)
  {
    if Registered(w, phase).Some? {
      WithOrderOfOne(Registered(w, phase).value, order);
    }
  }

  lemma {:induction false} OfIsWithOrder(wrappers: seq<Wrapper>, phase: Phase, order: nat)
    ensures WithOrder(RegisteredByAll(wrappers, phase), order) == Of(wrappers, phase, order)
  {
    if wrappers != [] {
      OfIsWithOrder(wrappers[1..], phase, order);
      WithOrderOfWrapper(wrappers[0], phase, order);
      WithOrderTogether(RegisteredBy(wrappers[0], phase), RegisteredByAll(wrappers[1..], phase), order);
    }
  }

  lemma {:induction false} OrdersAreSmall(wrappers: seq<Wrapper>, phase: Phase)
    ensures forall i :: 0 <= i < |RegisteredByAll(wrappers, phase)| ==> 1 <= RegisteredByAll(wrappers, phase)[i].order <= 5
  {
    if wrappers != [] {
      OrdersAreSmall(wrappers[1..], phase);
    }
  }

  function BuiltTable(wrappers: seq<Wrapper>, phase: Phase): Table {
    AppendedAll(map[], BuiltBy(wrappers, true, phase))
  }

  lemma BuiltAt(wrappers: seq<Wrapper>, phase: Phase, order: nat)
    ensures At(BuiltTable(wrappers, phase), order) == Of(wrappers, phase, order) + WithOrder(RegisteredByBase(phase), order)
    ensures order in BuiltTable(wrappers, phase) ==> 1 <= order <= 5
  {
    TableHolds(BuiltBy(wrappers, true, phase), order);
    WithOrderTogether(RegisteredByAll(wrappers, phase), RegisteredByBase(phase), order);
    OfIsWithOrder(wrappers, phase, order);
    OrdersAreSmall(wrappers, phase);
  }

  lemma BuiltRunsUpwards(wrappers: seq<Wrapper>, phase: Phase)
    ensures Ascending(BuiltTable(wrappers, phase)) == Upwards(BuiltTable(wrappers, phase), 5)
  {
    BuiltOrders(wrappers, phase);
    AscendingIsUpwards(BuiltTable(wrappers, phase), SortedOrders(BuiltTable(wrappers, phase).Keys), 5);
  }

  lemma BuiltRunsDownwards(wrappers: seq<Wrapper>, phase: Phase)
    ensures Descending(BuiltTable(wrappers, phase)) == Downwards(BuiltTable(wrappers, phase), 5)
  {
    BuiltOrders(wrappers, phase);
    var orders := SortedOrders(BuiltTable(wrappers, phase).Keys);
    ReversedOrders(BuiltTable(wrappers, phase), orders, 5);
    DescendingIsDownwards(BuiltTable(wrappers, phase), Reversed(orders), 5);
  }

  lemma BuiltOrders(wrappers: seq<Wrapper>, phase: Phase)
    ensures AreOrders(BuiltTable(wrappers, phase), SortedOrders(BuiltTable(wrappers, phase).Keys), 5)
  {
    var table := BuiltTable(wrappers, phase);
    forall o: nat
      ensures o in table ==> 1 <= o <= 5
    {
      BuiltAt(wrappers, phase, o);
    }
    var orders := SortedOrders(table.Keys);
    assert forall i :: 0 <= i < |orders| ==> orders[i] in orders;
  }

  lemma ReversedOrders(table: Table, orders: seq<nat>, n: nat)
    requires AreOrders(table, orders, n)
    ensures AreOrders(table, Reversed(orders), n)
  {
    ReversedMembers(orders);
  }

  lemma ReversedMembers<T>(s: seq<T>)
    ensures forall x :: x in s <==> x in Reversed(s)
  {
    forall i | 0 <= i < |s| ensures s[i] in Reversed(s) && Reversed(s)[i] in s {
      assert Reversed(s)[|s| - 1 - i] == s[i] && Reversed(s)[i] == s[|s| - 1 - i];
    }
  }

  ghost predicate AllAre(hooks: seq<Hook>, kind: Hook) {
    forall i :: 0 <= i < |hooks| ==> hooks[i] == kind
  }

  ghost predicate AllPush(hooks: seq<Hook>) {
    forall i :: 0 <= i < |hooks| ==> hooks[i].IsolationInjection? || hooks[i].DatabaseInjection?
  }

  ghost predicate AllPre(hooks: seq<Hook>) {
    forall i :: 0 <= i < |hooks| ==>
      hooks[i].BasePre? || hooks[i].CommunicatorPre? || hooks[i].MigrationPre? || hooks[i].CommitPre? || hooks[i].CleanPre? || hooks[i].LockPre?
  }

  /** How many wrappers isolate. */
  function Isolations(wrappers: seq<Wrapper>): nat {
    if wrappers == [] then 0 else (if wrappers[0].Isolation? then 1 else 0) + Isolations(wrappers[1..])
  }

  function Databases(wrappers: seq<Wrapper>): seq<Hook> {
    Of(wrappers, Injection, 4)
  }

  lemma {:induction false} OfNone(wrappers: seq<Wrapper>, order: nat)
    requires order in {1, 2, 5}
    ensures Of(wrappers, Injection, order) == []
  {
    if wrappers != [] {
      OfNone(wrappers[1..], order);
    }
  }

  lemma {:induction false} OfIsolations(wrappers: seq<Wrapper>)
    ensures AllAre(Of(wrappers, Injection, 3), IsolationInjection) && |Of(wrappers, Injection, 3)| == Isolations(wrappers)
  {
    if wrappers != [] {
      OfIsolations(wrappers[1..]);
    }
  }

  lemma {:induction false} OfDatabases(wrappers: seq<Wrapper>)
    ensures forall i :: 0 <= i < |Databases(wrappers)| ==> Databases(wrappers)[i].DatabaseInjection?
  {
    if wrappers != [] {
      OfDatabases(wrappers[1..]);
      var first := OneOf(wrappers[0], Injection, 4);
      assert Databases(wrappers) == first + Databases(wrappers[1..]);
      assert forall i :: 0 <= i < |first| ==> first[i].DatabaseInjection?;
    }
  }

  lemma {:induction false} OfPostsOfOneKind(wrappers: seq<Wrapper>)
    ensures Of(wrappers, Post, 1) == []
    ensures AllAre(Of(wrappers, Post, 2), CommunicatorPost)
    ensures AllAre(Of(wrappers, Post, 4), CommitPost)
  {
    if wrappers != [] {
      OfPostsOfOneKind(wrappers[1..]);
    }
  }

  lemma {:induction false} OfIsolationPosts(wrappers: seq<Wrapper>)
    ensures AllAre(Of(wrappers, Post, 3), IsolationPost) && |Of(wrappers, Post, 3)| == Isolations(wrappers)
  {
    if wrappers != [] {
      OfIsolationPosts(wrappers[1..]);
    }
  }

  lemma {:induction false} OfDatabasePosts(wrappers: seq<Wrapper>)
    ensures AllAre(Of(wrappers, Post, 5), DatabasePost) && |Of(wrappers, Post, 5)| == |Databases(wrappers)|
  {
    if wrappers != [] {
      OfDatabasePosts(wrappers[1..]);
      assert Databases(wrappers) == OneOf(wrappers[0], Injection, 4) + Databases(wrappers[1..]);
    }
  }

  lemma OfPosts(wrappers: seq<Wrapper>)
    ensures Of(wrappers, Post, 1) == []
    ensures AllAre(Of(wrappers, Post, 2), CommunicatorPost)
    ensures AllAre(Of(wrappers, Post, 3), IsolationPost) && |Of(wrappers, Post, 3)| == Isolations(wrappers)
    ensures AllAre(Of(wrappers, Post, 4), CommitPost)
    ensures AllAre(Of(wrappers, Post, 5), DatabasePost) && |Of(wrappers, Post, 5)| == |Databases(wrappers)|
  {
    OfPostsOfOneKind(wrappers);
    OfIsolationPosts(wrappers);
    OfDatabasePosts(wrappers);
  }

  lemma {:induction false} OfPres(wrappers: seq<Wrapper>, order: nat)
    ensures AllPre(Of(wrappers, Pre, order))
  {
    if wrappers != [] {
      OfPres(wrappers[1..], order);
    }
  }

  lemma UpwardsToFive(table: Table)
    ensures Upwards(table, 5) == At(table, 1) + At(table, 2) + At(table, 3) + At(table, 4) + At(table, 5)
  {
    assert Upwards(table, 0) == [];
    assert Upwards(table, 1) == At(table, 1);
    assert Upwards(table, 2) == At(table, 1) + At(table, 2);
    assert Upwards(table, 3) == At(table, 1) + At(table, 2) + At(table, 3);
    assert Upwards(table, 4) == At(table, 1) + At(table, 2) + At(table, 3) + At(table, 4);
  }

  lemma DownwardsFromFive(table: Table)
    ensures Downwards(table, 5) == At(table, 5) + (At(table, 4) + (At(table, 3) + (At(table, 2) + At(table, 1))))
  {
    assert Downwards(table, 0) == [];
    assert Downwards(table, 1) == At(table, 1);
    assert Downwards(table, 2) == At(table, 2) + At(table, 1);
    assert Downwards(table, 3) == At(table, 3) + (At(table, 2) + At(table, 1));
    assert Downwards(table, 4) == At(table, 4) + (At(table, 3) + (At(table, 2) + At(table, 1)));
  }

  function BaseHook(phase: Phase): Hook {
    match phase
    case Injection => BaseInjection
    case Pre => BasePre
    case Post => BasePost
  }

  /** The base registers for order 1 only, and after all the wrappers. */
  lemma BuiltAtOrder(wrappers: seq<Wrapper>, phase: Phase, order: nat)
    ensures At(BuiltTable(wrappers, phase), order) ==
            if order == 1 then Of(wrappers, phase, order) + [BaseHook(phase)] else Of(wrappers, phase, order)
  {
    BuiltAt(wrappers, phase, order);
    assert RegisteredByBase(phase) == [Registration(1, BaseHook(phase))];
    WithOrderOfOne(Registration(1, BaseHook(phase)), order);
  }

  /** A freshly built command runs the injection hooks of the base, of the isolations and of the databases, in this order. */
  lemma BuiltInjections(wrappers: seq<Wrapper>)
    ensures Ascending(BuiltTable(wrappers, Injection)) ==
            [BaseInjection] + (Of(wrappers, Injection, 3) + Databases(wrappers))
  {
    BuiltRunsUpwards(wrappers, Injection);
    UpwardsToFive(BuiltTable(wrappers, Injection));
    OfNone(wrappers, 1);
    OfNone(wrappers, 2);
    OfNone(wrappers, 5);
    BuiltAtOrder(wrappers, Injection, 1);
    BuiltAtOrder(wrappers, Injection, 2);
    BuiltAtOrder(wrappers, Injection, 3);
    BuiltAtOrder(wrappers, Injection, 4);
    BuiltAtOrder(wrappers, Injection, 5);
    DropEmpty([BaseInjection], Of(wrappers, Injection, 3), Databases(wrappers));
  }

  lemma DropEmpty<T>(a: seq<T>, b: seq<T>, c: seq<T>)
    ensures [] + a + [] + b + c + [] == a + (b + c)
  {
  }

  lemma BuiltAtPosts(wrappers: seq<Wrapper>)
    ensures var table := BuiltTable(wrappers, Post);
            && At(table, 5) == Of(wrappers, Post, 5) && At(table, 4) == Of(wrappers, Post, 4)
            && At(table, 3) == Of(wrappers, Post, 3) && At(table, 2) == Of(wrappers, Post, 2)
            && At(table, 1) == [BasePost]
  {
    OfPostsOfOneKind(wrappers);
    BuiltAtOrder(wrappers, Post, 1);
    BuiltAtOrder(wrappers, Post, 2);
    BuiltAtOrder(wrappers, Post, 3);
    BuiltAtOrder(wrappers, Post, 4);
    BuiltAtOrder(wrappers, Post, 5);
    assert [] + [BasePost] == [BasePost];
  }

  /** And the post hooks of the databases, the commits, the isolations, the communicators, and the base. */
  lemma BuiltPosts(wrappers: seq<Wrapper>)
    ensures Descending(BuiltTable(wrappers, Post)) ==
            Of(wrappers, Post, 5) + (Of(wrappers, Post, 4) + (Of(wrappers, Post, 3) + (Of(wrappers, Post, 2) + [BasePost])))
  {
    BuiltRunsDownwards(wrappers, Post);
    DownwardsFromFive(BuiltTable(wrappers, Post));
    BuiltAtPosts(wrappers);
  }

  /** What the wrappers register as pre hooks, in the order in which it runs. */
  function Wrapped(wrappers: seq<Wrapper>): seq<Hook> {
    Of(wrappers, Pre, 2) + (Of(wrappers, Pre, 3) + (Of(wrappers, Pre, 4) + Of(wrappers, Pre, 5)))
  }

  lemma {:induction false} NoPreAtOne(wrappers: seq<Wrapper>)
    ensures Of(wrappers, Pre, 1) == []
  {
    if wrappers != [] {
      NoPreAtOne(wrappers[1..]);
    }
  }

  lemma FirstApart<T>(a: seq<T>, b: seq<T>, c: seq<T>, d: seq<T>, e: seq<T>)
    ensures [] + a + b + c + d + e == a + (b + (c + (d + e)))
  {
  }

  /** The pre hook of the base runs before those of the wrappers. */
  lemma BuiltPres(wrappers: seq<Wrapper>)
    ensures Ascending(BuiltTable(wrappers, Pre)) == [BasePre] + Wrapped(wrappers) && AllPre(Wrapped(wrappers))
  {
    BuiltRunsUpwards(wrappers, Pre);
    UpwardsToFive(BuiltTable(wrappers, Pre));
    NoPreAtOne(wrappers);
    BuiltAtOrder(wrappers, Pre, 1);
    BuiltAtOrder(wrappers, Pre, 2);
    BuiltAtOrder(wrappers, Pre, 3);
    BuiltAtOrder(wrappers, Pre, 4);
    BuiltAtOrder(wrappers, Pre, 5);
    FirstApart([BasePre], Of(wrappers, Pre, 2), Of(wrappers, Pre, 3), Of(wrappers, Pre, 4), Of(wrappers, Pre, 5));
    WrappedIsPre(wrappers);
  }

  lemma WrappedIsPre(wrappers: seq<Wrapper>)
    ensures AllPre(Wrapped(wrappers))
  {
    OfPres(wrappers, 2);
    OfPres(wrappers, 3);
    OfPres(wrappers, 4);
    OfPres(wrappers, 5);
  }
}
