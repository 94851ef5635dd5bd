/** `merge_projects`: the three-way merge of a project's keywords, description and template. */
module ProjectMerge {
  import opened Common

  class Project {
    var keywords: seq<string>
    var description: Option<string>
    var annotations: seq<string>
    var template: string
    var version: int

    constructor (keywords: seq<string>, description: Option<string>, annotations: seq<string>, template: string, version: int)
      ensures this.keywords == keywords && this.description == description && this.annotations == annotations
      ensures this.template == template && this.version == version
    {
      this.keywords, this.description, this.annotations := keywords, description, annotations;
      this.template, this.version := template, version;
    }

    /** Whether the edited fields are the same. */
    predicate SameFields(other: Project)
      reads this, other
    {
      keywords == other.keywords && description == other.description && annotations == other.annotations
    }
  }

  function Elements<T>(s: seq<T>): set<T> {
    set x | x in s
  }

  /** `list(s)`: the elements in no particular order. */
  method ListOf(s: set<string>) returns (r: seq<string>)
    ensures Elements(r) == s && NoDuplicates(r)
  {
    r := [];
    var rest := s;
    while rest != {}
      invariant Elements(r) + rest == s && Elements(r) !! rest && NoDuplicates(r)
      decreases rest
    {
      var x :| x in rest;
      assert Elements(r + [x]) == Elements(r) + {x};
      assert x !in Elements(r);
      r, rest := r + [x], rest - {x};
    }
  }

  /**
   The three-way rule for a set: what the base had stays if both sides kept it, what is new stays if either
   side added it. Without a base everything is new.
   */
  ghost function ThreeWay(base: set<string>, local: set<string>, remote: set<string>): set<string> {
    (base * local * remote) + (local - base) + (remote - base)
  }

  /** The result follows the side that changed; if both did, differently, the user says. */
  ghost function ThreeWayValue<T>(base: Option<T>, local: T, remote: T, answer: T): T {
    if local == remote then local
    else if base == Some(local) then remote
    else if base == Some(remote) then local
    else answer
  }

  ghost function Before(base: Project?): set<string>
    reads base
  {
    if base == null then {} else Elements(base.keywords)
  }

  /** The keywords to keep when either side changed anything. */
  method MergeKeywords(local: seq<string>, remote: seq<string>, base: Option<seq<string>>) returns (merged: seq<string>)
    ensures Elements(merged) ==
            ThreeWay(if base.None? then {} else Elements(base.value), Elements(local), Elements(remote))
  {
    var l, r := Elements(local), Elements(remote);
    if local == remote {
      merged := local;
    } else if base.None? {
      merged := ListOf(l + r);
    } else {
      var b := Elements(base.value);
      if local != base.value && remote != base.value {
        var removed := (b - l) + (b - r);
        var added := (l - b) + (r - b);
        var existing := b - removed;
        merged := ListOf(added + existing);
      } else if remote != base.value {
        merged := remote;
      } else {
        merged := local;
      }
    }
  }

  function MergeDescription(local: Option<string>, remote: Option<string>, base: Option<Option<string>>, answer: Option<string>): (merged: Option<string>)
    ensures merged == ThreeWayValue(base, local, remote, answer)
  {
    if local == remote then local
    else if base.None? || (local != base.value && remote != base.value) then answer
    else if remote != base.value then remote
    else local
  }

  /** Whether a side differs from the base. */
  ghost predicate Changed(p: Project, base: Project?)
    reads p, base
  {
    base == null || !p.SameFields(base) || p.template != base.template
  }

  function Greater(a: int, b: int): int {
    if a < b then b else a
  }

  /** Whether the user has to settle a template changed on both sides. */
  ghost predicate TemplateConflict(local: Project, remote: Project, base: Project?)
    reads local, remote, base
  {
    base == null || (local.template != base.template && remote.template != base.template)
  }

  /**
   The merged project is the local one, changed in place, or the remote one. `answer` is the description
   the user enters, `action` what they say about templates. Fails when they abort.
   */
  method MergeProjects(local: Project, remote: Project, base: Project?, answer: Option<string>, action: string)
    returns (merged: Project, ok: bool)
    requires local != remote && local != base
    modifies local
    ensures merged == local || merged == remote
    ensures ok <==> !(old(TemplateConflict(local, remote, base)) && action != "l" && action != "r")
    ensures ok ==>
      Elements(merged.keywords) == ThreeWay(old(Before(base)), old(Elements(local.keywords)), old(Elements(remote.keywords)))
    ensures ok ==>
      merged.description == ThreeWayValue(if base == null then None else Some(old(base.description)),
                                          old(local.description), old(remote.description), answer)
    ensures ok && old(local.description == remote.description) ==> merged.description == old(local.description)
    ensures ok && old(local.description != remote.description) ==>
      merged.description ==
        if base != null && old(remote.description == base.description) then old(local.description)
        else if base != null && old(local.description == base.description) then old(remote.description)
        else answer
    ensures ok ==>
      merged.template ==
        if base != null && old(remote.template == base.template) then old(local.template)
        else if base != null && old(local.template == base.template) then old(remote.template)
        else if action == "r" then old(remote.template) else old(local.template)
    ensures ok ==> (merged == remote <==> old(!Changed(local, base) && Changed(remote, base)))
    ensures ok && merged == local ==>
      if old(Changed(local, base) && !Changed(remote, base)) then
        local.version == old(local.version) && local.annotations == old(local.annotations)
      else
        && local.version == Greater(old(local.version), old(remote.version))
        && Elements(local.annotations) == old(Elements(local.annotations)) + old(Elements(remote.annotations))
  {
    merged, ok := local, true;
    var localChanged := base == null || !local.SameFields(base);
    var localTemplateChanged := base == null || local.template != base.template;
    var remoteChanged := base == null || !remote.SameFields(base);
    var remoteTemplateChanged := base == null || remote.template != base.template;

    if (localChanged || localTemplateChanged) && !remoteChanged && !remoteTemplateChanged {
      return local, true;
    } else if !localChanged && !localTemplateChanged && (remoteChanged || remoteTemplateChanged) {
      return remote, true;
    }

    if localChanged || remoteChanged {
      local.keywords := MergeKeywords(local.keywords, remote.keywords, if base == null then None else Some(base.keywords));
      local.description :=
        MergeDescription(local.description, remote.description, if base == null then None else Some(base.description), answer);
      local.annotations := ListOf(Elements(local.annotations) + Elements(remote.annotations));
    }

    if remote.version > local.version {
      local.version := remote.version;
    }

    if localTemplateChanged && remoteTemplateChanged {
      if action == "r" {
        local.template := remote.template;
      } else if action != "l" {
        return local, false;
      }
    } else if remoteTemplateChanged {
      local.template := remote.template;
    }
  }

  /** Element by element: kept by both if it was there before, added by either if it was not. */
  lemma ThreeWayByElement(base: set<string>, local: set<string>, remote: set<string>, x: string)
    ensures x in ThreeWay(base, local, remote) <==> if x in base then x in local && x in remote else x in local || x in remote
  {
  }

  /**
   In a merge of several branches against one base, a keyword that the base had stays exactly if the local
   side and all branches kept it, and one that the base did not have is there exactly if any side added it.
   */
  ghost function ThreeWayAll(base: set<string>, local: set<string>, remotes: seq<set<string>>): set<string>
    decreases |remotes|
  {
    if remotes == [] then local else ThreeWayAll(base, ThreeWay(base, local, remotes[0]), remotes[1..])
  }

  lemma {:induction false} ThreeWayAllByElement(base: set<string>, local: set<string>, remotes: seq<set<string>>, x: string)
    ensures x in ThreeWayAll(base, local, remotes) <==>
            if x in base then x in local && forall r :: r in remotes ==> x in r
            else x in local || exists r :: r in remotes && x in r
    decreases |remotes|
  {
    if remotes != [] {
      ThreeWayByElement(base, local, remotes[0], x);
      ThreeWayAllByElement(base, ThreeWay(base, local, remotes[0]), remotes[1..], x);
      assert forall r :: r in remotes <==> r == remotes[0] || r in remotes[1..];
    }
  }

  /** Neither the order of the branches nor merging one twice makes a difference to the keywords. */
  lemma BranchOrderDoesNotMatter(base: set<string>, local: set<string>, remotes: seq<set<string>>, remotes': seq<set<string>>)
    requires forall r :: r in remotes <==> r in remotes'
    ensures ThreeWayAll(base, local, remotes) == ThreeWayAll(base, local, remotes')
  {
    forall x ensures x in ThreeWayAll(base, local, remotes) <==> x in ThreeWayAll(base, local, remotes') {
      ThreeWayAllByElement(base, local, remotes, x);
      ThreeWayAllByElement(base, local, remotes', x);
    }
  }

  // ---------- All branches ----------

  /** What is merged of a project, field by field; keywords as a set. */
  datatype Fields = Fields(keywords: set<string>, description: Option<string>, template: string)

  /** What the user enters for one branch. */
  datatype Answers = Answers(description: Option<string>, action: string)

  datatype Side = Side(fields: Fields, answers: Answers)

  ghost function FieldsOf(p: Project): Fields
    reads p
  {
    Fields(Elements(p.keywords), p.description, p.template)
  }

  ghost function BaseFields(base: Project?): Option<Fields>
    reads base
  {
    if base == null then None else Some(FieldsOf(base))
  }

  /** The fields after one branch; raises when both sides changed the template and the user settles for neither. */
  ghost function MergedFields(base: Option<Fields>, local: Fields, side: Side): Outcome<Fields> {
    var remote, action := side.fields, side.answers.action;
    var conflict := base.None? || (local.template != base.value.template && remote.template != base.value.template);
    if conflict && action != "l" && action != "r" then Raised
    else
      Done(Fields(ThreeWay(if base.None? then {} else base.value.keywords, local.keywords, remote.keywords),
                  ThreeWayValue(if base.None? then None else Some(base.value.description),
                                local.description, remote.description, side.answers.description),
                  if base.Some? && remote.template == base.value.template then local.template
                  else if base.Some? && local.template == base.value.template then remote.template
                  else if action == "r" then remote.template else local.template))
  }

  ghost function MergedAll(base: Option<Fields>, local: Fields, sides: seq<Side>): Outcome<Fields>
    decreases |sides|
  {
    if sides == [] then Done(local) else
      var next :- MergedFields(base, local, sides[0]);
      MergedAll(base, next, sides[1..])
  }

  /** The fields of each branch's project, if it has one. */
  ghost function AllFields(remotes: seq<Project?>): seq<Option<Fields>>
    reads set r | r in remotes
  {
    seq(|remotes|, i requires 0 <= i < |remotes| reads set r | r in remotes =>
      if remotes[i] == null then None else Some(FieldsOf(remotes[i])))
  }

  /** The branches that have a project. */
  function Sides(fields: seq<Option<Fields>>, answers: seq<Answers>): seq<Side>
    requires |answers| == |fields|
  {
    if fields == [] then [] else
      (if fields[0].None? then [] else [Side(fields[0].value, answers[0])]) + Sides(fields[1..], answers[1..])
  }

  function KeywordSets(sides: seq<Side>): seq<set<string>> {
    if sides == [] then [] else [sides[0].fields.keywords] + KeywordSets(sides[1..])
  }

  /** The keywords of a merge of all branches are those of all three-way merges. */
  lemma {:induction false} MergedKeywords(base: Option<Fields>, local: Fields, sides: seq<Side>)
    requires MergedAll(base, local, sides).Done?
    ensures MergedAll(base, local, sides).value.keywords ==
            ThreeWayAll(if base.None? then {} else base.value.keywords, local.keywords, KeywordSets(sides))
    decreases |sides|
  {
    if sides != [] {
      MergedKeywords(base, MergedFields(base, local, sides[0]).value, sides[1..]);
      assert KeywordSets(sides)[1..] == KeywordSets(sides[1..]);
    }
  }

  /** Merging what is left, from `i` on, gives the result; `some` tells whether there was a project before. */
  ghost predicate OnCourse(base: Option<Fields>, fields: seq<Option<Fields>>, answers: seq<Answers>, i: nat,
                           current: Fields, some: bool, result: Outcome<Fields>) {
    && |answers| == |fields| && i <= |fields|
    && result == MergedAll(base, current, Sides(fields[i..], answers[i..]))
    && (Sides(fields, answers) != [] <==> some || Sides(fields[i..], answers[i..]) != [])
  }

  lemma SidesNext(fields: seq<Option<Fields>>, answers: seq<Answers>, i: nat)
    requires |answers| == |fields| && i < |fields|
    ensures Sides(fields[i..], answers[i..]) ==
            (if fields[i].None? then [] else [Side(fields[i].value, answers[i])]) + Sides(fields[i + 1..], answers[i + 1..])
  {
    assert fields[i..][0] == fields[i] && fields[i..][1..] == fields[i + 1..];
    assert answers[i..][0] == answers[i] && answers[i..][1..] == answers[i + 1..];
  }

  lemma MergedAllNext(base: Option<Fields>, local: Fields, side: Side, sides: seq<Side>)
    ensures MergedAll(base, local, [side] + sides) ==
            var next := MergedFields(base, local, side); if next.Raised? then Raised else MergedAll(base, next.value, sides)
  {
    assert ([side] + sides)[1..] == sides;
  }

  lemma PassingOver(base: Option<Fields>, fields: seq<Option<Fields>>, answers: seq<Answers>, i: nat,
                    current: Fields, some: bool, result: Outcome<Fields>)
    requires OnCourse(base, fields, answers, i, current, some, result) && i < |fields| && fields[i].None?
    ensures OnCourse(base, fields, answers, i + 1, current, some, result)
  {
    SidesNext(fields, answers, i);
    assert [] + Sides(fields[i + 1..], answers[i + 1..]) == Sides(fields[i + 1..], answers[i + 1..]);
  }

  lemma MergingOne(base: Option<Fields>, fields: seq<Option<Fields>>, answers: seq<Answers>, i: nat,
                   current: Fields, some: bool, result: Outcome<Fields>)
    requires OnCourse(base, fields, answers, i, current, some, result) && i < |fields| && fields[i].Some?
    ensures var next := MergedFields(base, current, Side(fields[i].value, answers[i]));
            if next.Raised? then result.Raised? else OnCourse(base, fields, answers, i + 1, next.value, true, result)
  {
    SidesNext(fields, answers, i);
    MergedAllNext(base, current, Side(fields[i].value, answers[i]), Sides(fields[i + 1..], answers[i + 1..]));
  }

  /** `merge_projects` as one turn of the loop. */
  method MergeNext(local: Project, remote: Project, base: Project?, answers: Answers) returns (merged: Project, ok: bool)
    requires local != remote && local != base
    modifies local
    ensures merged == local || merged == remote
    ensures old(MergedFields(BaseFields(base), FieldsOf(local), Side(FieldsOf(remote), answers))) ==
            if ok then Done(FieldsOf(merged)) else Raised
  {
    merged, ok := MergeProjects(local, remote, base, answers.description, answers.action);
  }

  /** The projects from `i` on are as they were. */
  ghost predicate Pending(remotes: seq<Project?>, fields: seq<Option<Fields>>, i: nat)
    reads set r | r in remotes
  {
    && |fields| == |remotes|
    && forall j :: i <= j < |remotes| ==> fields[j] == if remotes[j] == null then None else Some(FieldsOf(remotes[j]))
  }

  /** One turn of the loop, on a branch that has a project; later ones are left alone. */
  method MergeAt(local: Project, remotes: seq<Project?>, i: nat, base: Project?, answers: Answers, ghost fields: seq<Option<Fields>>)
    returns (merged: Project, ok: bool)
    requires i < |remotes| && remotes[i] != null && Pending(remotes, fields, i)
    requires local != base && forall j :: i <= j < |remotes| ==> remotes[j] != local
    modifies local
    ensures merged == local || merged == remotes[i]
    ensures Pending(remotes, fields, i + 1) && BaseFields(base) == old(BaseFields(base))
    ensures MergedFields(old(BaseFields(base)), old(FieldsOf(local)), Side(fields[i].value, answers)) ==
            if ok then Done(FieldsOf(merged)) else Raised
  {
    merged, ok := MergeNext(local, remotes[i], base, answers);
  }

  /** The projects before `i` that are not null, and the local one, are not met again. */
  ghost predicate Behind(merged: Project, local: Project, remotes: seq<Project?>, i: nat) {
    i <= |remotes| && (merged == local || merged in remotes[..i])
  }

  lemma BehindIsNotAhead(merged: Project, local: Project, remotes: seq<Project?>, i: nat)
    requires Behind(merged, local, remotes, i) && local !in remotes
    requires forall a, b :: 0 <= a < b < |remotes| && remotes[a] != null ==> remotes[a] != remotes[b]
    ensures forall j :: i <= j < |remotes| ==> remotes[j] != merged
    ensures merged == local || merged in remotes
    ensures i < |remotes| ==> Behind(merged, local, remotes, i + 1)
    ensures i < |remotes| && remotes[i] != null ==> Behind(remotes[i], local, remotes, i + 1)
  {
    if i < |remotes| {
      TakeNext(remotes, i);
    }
    if merged in remotes[..i] {
      var k :| 0 <= k < i && remotes[..i][k] == merged;
      assert remotes[k] == merged;
    }
    assert forall j :: i <= j < |remotes| ==> remotes[j] in remotes;
  }

  /** Before the turn of branch `i`: what was merged, what is still to be, and what the result will be. */
  ghost predicate Ready(merged: Project, local: Project, remotes: seq<Project?>, i: nat, fields: seq<Option<Fields>>,
                        answers: seq<Answers>, before: Option<Fields>, some: bool, result: Outcome<Fields>)
    reads merged, set r | r in remotes
  {
    && Behind(merged, local, remotes, i) && Pending(remotes, fields, i)
    && OnCourse(before, fields, answers, i, FieldsOf(merged), some, result)
  }

  ghost predicate Distinct(local: Project, remotes: seq<Project?>, base: Project?) {
    && local !in remotes && local != base && (base != null ==> base !in remotes)
    && forall i, j :: 0 <= i < j < |remotes| && remotes[i] != null ==> remotes[i] != remotes[j]
  }

  /** One turn of the loop. */
  method MergeTurn(merged: Project, local: Project, remotes: seq<Project?>, i: nat, base: Project?, answers: seq<Answers>, some: bool,
                   ghost fields: seq<Option<Fields>>, ghost result: Outcome<Fields>)
    returns (next: Project, ok: bool)
    requires Distinct(local, remotes, base) && i < |remotes| && |answers| == |remotes|
    requires Ready(merged, local, remotes, i, fields, answers, BaseFields(base), some, result)
    modifies merged
    ensures BaseFields(base) == old(BaseFields(base)) && (next == local || next in remotes)
    ensures if ok then Ready(next, local, remotes, i + 1, fields, answers, BaseFields(base), some || remotes[i] != null, result)
            else result.Raised?
  {
    BehindIsNotAhead(merged, local, remotes, i);
    if remotes[i] == null {
      PassingOver(BaseFields(base), fields, answers, i, FieldsOf(merged), some, result);
      return merged, true;
    }
    MergingOne(BaseFields(base), fields, answers, i, FieldsOf(merged), some, result);
    next, ok := MergeAt(merged, remotes, i, base, answers[i], fields);
    BehindIsNotAhead(next, local, remotes, i + 1);
  }

  /**
   The loop of `merge` over projects: a branch without one is passed over, and the result of a merge is the
   local side of the next. Fails if a merge is aborted, and if no branch has a project.
   */
  method MergeAllProjects(local: Project, remotes: seq<Project?>, base: Project?, answers: seq<Answers>)
    returns (merged: Project, ok: bool)
    requires Distinct(local, remotes, base) && |answers| == |remotes|
    modifies local, set r | r in remotes
    ensures merged == local || merged in remotes
    ensures var sides := old(Sides(AllFields(remotes), answers));
            var result := MergedAll(old(BaseFields(base)), old(FieldsOf(local)), sides);
            && (ok <==> result.Done? && sides != [])
            && (ok ==> FieldsOf(merged) == result.value)
  {
    merged, ok := local, false;
    ghost var before, fields := BaseFields(base), AllFields(remotes);
    ghost var result := MergedAll(before, FieldsOf(local), Sides(fields, answers));
    assert fields[0..] == fields && answers[0..] == answers;
    for i := 0 to |remotes|
      invariant BaseFields(base) == before && (merged == local || merged in remotes)
      invariant Ready(merged, local, remotes, i, fields, answers, before, ok, result)
    {
      var completed;
      merged, completed := MergeTurn(merged, local, remotes, i, base, answers, ok, fields, result);
      if !completed {
        return merged, false;
      }
      ok := ok || remotes[i] != null;
    }
    assert fields[|remotes|..] == [] && answers[|remotes|..] == [];
  }
}
