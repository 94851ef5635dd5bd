/** `fix_plan_dates`: repairing the dates of plans along derivation chains that share ancestors. */
module PlanDates {
  import opened Common

  /** What `fix_plan_dates` may change in a plan. */
  datatype Dates = Dates(created: int, modified: Option<int>, removed: Option<int>, frozen: bool, updates: nat)

  /** A plan; dates are in seconds. `updates` counts how often its dates were set. */
  class Plan {
    const id: string
    const derivedFrom: Option<string>
    var dateCreated: int
    var dateModified: Option<int>
    var dateRemoved: Option<int>
    var frozen: bool
    ghost var updates: nat

    constructor (id: string, derivedFrom: Option<string>, dateCreated: int, dateRemoved: Option<int>)
      ensures this.id == id && this.derivedFrom == derivedFrom && this.dateCreated == dateCreated
      ensures dateModified == None && this.dateRemoved == dateRemoved && frozen && updates == 0
    {
      this.id, this.derivedFrom, this.dateCreated, this.dateRemoved := id, derivedFrom, dateCreated, dateRemoved;
      dateModified, frozen, updates := None, true, 0;
    }

    predicate IsDerivation() {
      derivedFrom.Some? && derivedFrom.value != id
    }

    ghost function State(): Dates
      reads this
    {
      Dates(dateCreated, dateModified, dateRemoved, frozen, updates)
    }
  }

  /** The gateway finds what every plan derives from, and derivations have no cycle. */
  ghost predicate Derivations(gateway: map<string, Plan>, all: set<Plan>, rank: map<Plan, nat>) {
    && all <= rank.Keys
    && forall p :: p in all && p.IsDerivation() ==>
         && p.derivedFrom.value in gateway
         && gateway[p.derivedFrom.value] in all && rank[gateway[p.derivedFrom.value]] < rank[p]
  }

  /** The plan, what it derives from, and so on. */
  ghost function ChainOf(gateway: map<string, Plan>, all: set<Plan>, rank: map<Plan, nat>, p: Plan): (chain: set<Plan>)
    requires Derivations(gateway, all, rank) && p in all
    ensures p in chain && chain <= all
    decreases rank[p]
  {
    if p.IsDerivation() then {p} + ChainOf(gateway, all, rank, gateway[p.derivedFrom.value]) else {p}
  }

  ghost function RootOf(gateway: map<string, Plan>, all: set<Plan>, rank: map<Plan, nat>, p: Plan): (root: Plan)
    requires Derivations(gateway, all, rank) && p in all
    ensures root in all && !root.IsDerivation()
    decreases rank[p]
  {
    if p.IsDerivation() then RootOf(gateway, all, rank, gateway[p.derivedFrom.value]) else p
  }

  /** Everything on a chain has the same root. */
  lemma {:induction false} ChainSharesRoot(gateway: map<string, Plan>, all: set<Plan>, rank: map<Plan, nat>, p: Plan, q: Plan)
    requires Derivations(gateway, all, rank) && p in all && q in ChainOf(gateway, all, rank, p)
    ensures RootOf(gateway, all, rank, q) == RootOf(gateway, all, rank, p)
    ensures ChainOf(gateway, all, rank, q) <= ChainOf(gateway, all, rank, p)
    decreases rank[p]
  {
    if q != p {
      ChainSharesRoot(gateway, all, rank, gateway[p.derivedFrom.value], q);
    }
  }

  /** All plans on the chains of the first `n` plans. */
  ghost function OnChains(gateway: map<string, Plan>, all: set<Plan>, rank: map<Plan, nat>, plans: seq<Plan>, n: nat): set<Plan>
    requires Derivations(gateway, all, rank) && (forall p :: p in plans ==> p in all) && n <= |plans|
  {
    set q | q in all && exists i :: 0 <= i < n && q in ChainOf(gateway, all, rank, plans[i])
  }

  lemma OnChainsNext(gateway: map<string, Plan>, all: set<Plan>, rank: map<Plan, nat>, plans: seq<Plan>, n: nat)
    requires Derivations(gateway, all, rank) && (forall p :: p in plans ==> p in all) && n < |plans|
    ensures OnChains(gateway, all, rank, plans, n + 1) == OnChains(gateway, all, rank, plans, n) + ChainOf(gateway, all, rank, plans[n])
  {
  }

  /** Once more updated: the old creation date becomes the modification date. */
  ghost function Redated(d: Dates, creationDate: int): Dates {
    Dates(creationDate, Some(d.created),
          if d.removed.Some? && d.removed.value < creationDate then Some(creationDate + 1) else d.removed,
          true, d.updates + 1)
  }

  ghost function Snapshot(all: set<Plan>): (dates: map<Plan, Dates>)
    reads all
  {
    map p | p in all :: p.State()
  }

  /** The plans in `processed`, and no others, got the creation date that their root had before. */
  ghost predicate Repaired(gateway: map<string, Plan>, all: set<Plan>, rank: map<Plan, nat>,
                           before: map<Plan, Dates>, after: map<Plan, Dates>, processed: set<Plan>)
    requires Derivations(gateway, all, rank)
  {
    && before.Keys == after.Keys == all
    && forall p :: p in all ==>
         after[p] == if p in processed then Redated(before[p], before[RootOf(gateway, all, rank, p)].created) else before[p]
  }

  /**
   * Earlier chains may have redated some ancestors already; the root still shows its own old
   * date, so redating the rest of this chain with it repairs the chain.
   */
  lemma RepairOneMore(gateway: map<string, Plan>, all: set<Plan>, rank: map<Plan, nat>, tail: Plan,
                      before: map<Plan, Dates>, between: map<Plan, Dates>, after: map<Plan, Dates>, done: set<Plan>)
    requires Derivations(gateway, all, rank) && tail in all
    requires Repaired(gateway, all, rank, before, between, done)
    requires after.Keys == all
    requires forall p :: p in all ==>
               after[p] == if p in ChainOf(gateway, all, rank, tail) && p !in done
                           then Redated(between[p], between[RootOf(gateway, all, rank, tail)].created) else between[p]
    ensures Repaired(gateway, all, rank, before, after, done + ChainOf(gateway, all, rank, tail))
  {
    var root := RootOf(gateway, all, rank, tail);
    assert RootOf(gateway, all, rank, root) == root;
    assert between[root].created == before[root].created;
    forall p | p in ChainOf(gateway, all, rank, tail)
      ensures RootOf(gateway, all, rank, p) == root
    {
      ChainSharesRoot(gateway, all, rank, tail, p);
    }
  }

  /** Walks from `tail` to its root, collecting the plans not seen before. */
  method Climb(tail: Plan, gateway: map<string, Plan>, done: set<Plan>, ghost all: set<Plan>, ghost rank: map<Plan, nat>)
    returns (processed: set<Plan>, toBeProcessed: seq<Plan>, creationDate: int)
    requires Derivations(gateway, all, rank) && tail in all
    ensures processed == done + ChainOf(gateway, all, rank, tail)
    ensures NoDuplicates(toBeProcessed)
    ensures forall p :: p in toBeProcessed <==> p in processed && p !in done
    ensures creationDate == RootOf(gateway, all, rank, tail).dateCreated
  {
    processed, toBeProcessed := done, [];
    if tail !in processed {
      processed := processed + {tail};
      toBeProcessed := toBeProcessed + [tail];
    }
    creationDate := tail.dateCreated;
    var plan := tail;
    while plan.IsDerivation()
      invariant plan in all && RootOf(gateway, all, rank, plan) == RootOf(gateway, all, rank, tail)
      invariant creationDate == plan.dateCreated
      invariant processed + ChainOf(gateway, all, rank, plan) == done + ChainOf(gateway, all, rank, tail)
      invariant done <= processed && plan in processed
      invariant NoDuplicates(toBeProcessed)
      invariant forall p :: p in toBeProcessed <==> p in processed && p !in done
      decreases rank[plan]
    {
      plan := gateway[plan.derivedFrom.value];
      creationDate := plan.dateCreated;
      if plan !in processed {
        processed := processed + {plan};
        toBeProcessed := toBeProcessed + [plan];
      }
    }
  }

  /** Empties the stack, giving every plan on it the creation date. */
  method Redate(stack: seq<Plan>, creationDate: int)
    requires NoDuplicates(stack)
    modifies set p | p in stack
    ensures forall p :: p in stack ==> p.State() == Redated(old(p.State()), creationDate)
  {
    var toBeProcessed := stack;
    while toBeProcessed != []
      invariant toBeProcessed <= stack
      invariant forall i :: 0 <= i < |toBeProcessed| ==> stack[i].State() == old(stack[i].State())
      invariant forall i :: |toBeProcessed| <= i < |stack| ==> stack[i].State() == Redated(old(stack[i].State()), creationDate)
      decreases |toBeProcessed|
    {
      var n := |toBeProcessed| - 1;
      var plan := toBeProcessed[n];
      assert plan == stack[n];
      toBeProcessed := toBeProcessed[..n];
      plan.frozen := false;
      plan.dateModified := Some(plan.dateCreated);
      plan.dateCreated := creationDate;
      if plan.dateRemoved.Some? && plan.dateRemoved.value < plan.dateCreated {
        plan.dateRemoved := Some(plan.dateCreated + 1);
      }
      plan.updates := plan.updates + 1;
      plan.frozen := true;
    }
  }

  /** Redates what `tail`'s chain adds to the plans already done. */
  method FixChain(tail: Plan, gateway: map<string, Plan>, done: set<Plan>, ghost all: set<Plan>, ghost rank: map<Plan, nat>)
    returns (processed: set<Plan>)
    requires Derivations(gateway, all, rank) && tail in all
    modifies all
    ensures processed == done + ChainOf(gateway, all, rank, tail)
    ensures forall p :: p in all ==>
              p.State() == if p in ChainOf(gateway, all, rank, tail) && p !in done
                           then Redated(old(p.State()), old(RootOf(gateway, all, rank, tail).dateCreated)) else old(p.State())
  {
    var toBeProcessed, creationDate;
    processed, toBeProcessed, creationDate := Climb(tail, gateway, done, all, rank);
    Redate(toBeProcessed, creationDate);
  }

  /**
   * Afterwards exactly the plans on the chains of `plans` were updated, once each, and the new
   * dates depend on the old ones alone: not on the order of `plans`.
   */
  method FixPlanDates(plans: seq<Plan>, gateway: map<string, Plan>, ghost all: set<Plan>, ghost rank: map<Plan, nat>)
    requires Derivations(gateway, all, rank) && forall p :: p in plans ==> p in all
    modifies all
    ensures Repaired(gateway, all, rank, old(Snapshot(all)), Snapshot(all), OnChains(gateway, all, rank, plans, |plans|))
    ensures forall p :: p in OnChains(gateway, all, rank, plans, |plans|) ==>
              p.dateCreated == old(RootOf(gateway, all, rank, p).dateCreated) && p.dateModified == Some(old(p.dateCreated)) && p.frozen
    ensures forall p :: p in OnChains(gateway, all, rank, plans, |plans|) ==>
              var date := old(RootOf(gateway, all, rank, p).dateCreated);
              p.dateRemoved == if old(p.dateRemoved).Some? && old(p.dateRemoved).value < date then Some(date + 1) else old(p.dateRemoved)
    ensures forall p :: p in all && p !in OnChains(gateway, all, rank, plans, |plans|) ==> p.State() == old(p.State())
  {
    var processed: set<Plan> := {};
    ghost var before := Snapshot(all);
    for i := 0 to |plans|
      invariant processed == OnChains(gateway, all, rank, plans, i)
      invariant Repaired(gateway, all, rank, before, Snapshot(all), processed)
    {
      OnChainsNext(gateway, all, rank, plans, i);
      ghost var done, between := processed, Snapshot(all);
      processed := FixChain(plans[i], gateway, processed, all, rank);
      RepairOneMore(gateway, all, rank, plans[i], before, between, Snapshot(all), done);
    }
    ghost var after := Snapshot(all);
    forall p | p in processed
      ensures var date := before[RootOf(gateway, all, rank, p)].created;
              && p.dateCreated == date && p.dateModified == Some(before[p].created) && p.frozen
              && p.dateRemoved == if before[p].removed.Some? && before[p].removed.value < date then Some(date + 1) else before[p].removed
    {
      assert after[p] == p.State();
    }
    forall p | p in all && p !in processed ensures p.State() == before[p] {
      assert after[p] == p.State();
    }
  }

  /** The repair is the same for any two lists holding the same plans. */
  lemma RepairIgnoresOrder(gateway: map<string, Plan>, all: set<Plan>, rank: map<Plan, nat>, plans: seq<Plan>, others: seq<Plan>,
                           before: map<Plan, Dates>, after: map<Plan, Dates>, otherAfter: map<Plan, Dates>)
    requires Derivations(gateway, all, rank)
    requires (forall p :: p in plans ==> p in all) && (forall p :: p in plans <==> p in others)
    requires Repaired(gateway, all, rank, before, after, OnChains(gateway, all, rank, plans, |plans|))
    requires Repaired(gateway, all, rank, before, otherAfter, OnChains(gateway, all, rank, others, |others|))
    ensures after == otherAfter
  {
    forall q | q in all
      ensures q in OnChains(gateway, all, rank, plans, |plans|) <==> q in OnChains(gateway, all, rank, others, |others|)
    {
      OnChainsOfMembers(gateway, all, rank, plans, q);
      OnChainsOfMembers(gateway, all, rank, others, q);
    }
  }

  lemma OnChainsOfMembers(gateway: map<string, Plan>, all: set<Plan>, rank: map<Plan, nat>, plans: seq<Plan>, q: Plan)
    requires Derivations(gateway, all, rank) && forall p :: p in plans ==> p in all
    ensures q in OnChains(gateway, all, rank, plans, |plans|) <==> exists p :: p in plans && q in ChainOf(gateway, all, rank, p)
  {
    if p :| p in plans && q in ChainOf(gateway, all, rank, p) {
      var i :| 0 <= i < |plans| && plans[i] == p;
      assert q in ChainOf(gateway, all, rank, plans[i]);
    }
  }
}
