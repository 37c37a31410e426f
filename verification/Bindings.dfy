/** Bringing the skill bindings of existing agents in line with the declared scopes of the skills. */
module Bindings {
  import opened Prelude

  datatype Skill = Skill(
    id: nat, enabled: bool, builtin: bool, ref: Option<string>, scope: Option<string>, intent: Option<string>)

  datatype Agent = Agent(id: nat, kind: string, category: Option<string>, slug: Option<string>)

  /** The primary key of a binding row. */
  datatype Pair = Pair(agent: nat, skill: nat)

  // ---------------------------------------------------------------- the rows each query selects

  /** scope IN ('all', NULL): a null scope is not in the list, not even when the list holds NULL. */
  predicate ToRescope(s: Skill) {
    !s.builtin && s.ref == Some("remote_skill_invoke") && s.scope == Some("all")
  }

  function Rescope(s: Skill): Skill {
    if ToRescope(s) then s.(scope := Some("worker"), intent := Some("io")) else s
  }

  function RescopeAll(skills: seq<Skill>): seq<Skill> {
    seq(|skills|, i requires 0 <= i < |skills| => Rescope(skills[i]))
  }

  predicate Considered(s: Skill) {
    s.enabled && s.scope in {Some("all"), Some("super"), Some("worker")}
  }

  predicate Reconciles(a: Agent) {
    a.kind in {"super", "worker"}
  }

  predicate IsBuilderSuper(a: Agent) {
    a.kind == "super" && a.category == Some("builder") && a.slug == Some("builder")
  }

  predicate ScopeMatches(s: Skill, a: Agent) {
    s.scope == Some("all") || s.scope == Some(a.kind)
  }

  /** Primary keys, and the unique slug of an agent. */
  ghost predicate Keyed(skills: seq<Skill>, agents: seq<Agent>) {
    && (forall i, j | 0 <= i < j < |skills| :: skills[i].id != skills[j].id)
    && (forall i, j | 0 <= i < j < |agents| :: agents[i].id != agents[j].id)
    && (forall i, j | 0 <= i < j < |agents| :: agents[i].slug != None ==> agents[i].slug != agents[j].slug)
  }

  // ---------------------------------------------------------------- the goal

  /** A pair that the scopes ask for. */
  ghost predicate Wanted(p: Pair, skills: seq<Skill>, agents: seq<Agent>) {
    exists i, j :: 0 <= i < |skills| && 0 <= j < |agents| && Asks(skills[i], agents[j], p)
  }

  predicate Asks(s: Skill, a: Agent, p: Pair) {
    p == Pair(a.id, s.id) && Considered(s) && Reconciles(a) && ScopeMatches(s, a)
  }

  /** A worker's skill bound to a supervisor other than the builder's. */
  ghost predicate Stray(p: Pair, skills: seq<Skill>, agents: seq<Agent>) {
    exists i, j :: 0 <= i < |skills| && 0 <= j < |agents| && Offends(skills[i], agents[j], p)
  }

  predicate Offends(s: Skill, a: Agent, p: Pair) {
    && p == Pair(a.id, s.id) && s.enabled && s.scope == Some("worker")
    && a.kind == "super" && !IsBuilderSuper(a)
  }

  /** What the bindings become: the old ones and the wanted ones, without the strays. */
  ghost predicate IsReconciled(after: set<Pair>, before: set<Pair>, skills: seq<Skill>, agents: seq<Agent>) {
    forall p :: p in after <==> (p in before || Wanted(p, skills, agents)) && !Stray(p, skills, agents)
  }

  /** Nothing is both wanted and stray, so the order of adding and pruning does not matter. */
  lemma WantedIsNoStray(p: Pair, skills: seq<Skill>, agents: seq<Agent>)
    requires Keyed(skills, agents)
    ensures !(Wanted(p, skills, agents) && Stray(p, skills, agents))
  {
  }

  // ---------------------------------------------------------------- the tables and the job

  class Tables {
    var skills: seq<Skill>
    var agents: seq<Agent>
    var bindings: set<Pair>

    constructor (skills: seq<Skill>, agents: seq<Agent>, bindings: set<Pair>)
      ensures this.skills == skills && this.agents == agents && this.bindings == bindings
    {
      this.skills, this.agents, this.bindings := skills, agents, bindings;
    }

    /** Step 0: installed remote skills scoped to everyone become worker skills. */
    method RescopeInstalled()
      modifies this`skills
      ensures skills == RescopeAll(old(skills))
    {
      var done: seq<Skill> := [];
      for i := 0 to |skills|
        invariant skills == old(skills) && done == RescopeAll(skills[..i])
      {
        var sk := skills[i];
        if !sk.builtin && sk.ref == Some("remote_skill_invoke") && sk.scope == Some("all") {
          sk := sk.(scope := Some("worker"), intent := Some("io"));
        }
        done := done + [sk];
      }
      assert skills[..|skills|] == skills;
      skills := done;
    }

    /** The backfill: both loops skip, test and add exactly as the job does. */
    method Backfill() returns (added: nat)
      modifies this`bindings
      ensures forall p :: p in bindings <==> p in old(bindings) || Wanted(p, skills, agents)
      ensures added == |bindings| - |old(bindings)|
    {
      added := 0;
      for i := 0 to |skills|
        invariant forall p :: p in bindings <==> p in old(bindings) || Wanted(p, skills[..i], agents)
        invariant added == |bindings| - |old(bindings)|
      {
        var sk := skills[i];
        if Considered(sk) {
          ghost var before := bindings;
          for j := 0 to |agents|
            invariant forall p :: p in bindings <==> p in before || AsksAny(p, sk, agents[..j])
            invariant added == |bindings| - |old(bindings)|
          {
            AsksOneMore(sk, agents, j);
            if !Reconciles(agents[j]) {
              continue;
            }
            if sk.scope == Some("super") && agents[j].kind != "super" {
              continue;
            }
            if sk.scope == Some("worker") && agents[j].kind != "worker" {
              continue;
            }
            if Pair(agents[j].id, sk.id) in bindings {
              continue;
            }
            bindings := bindings + {Pair(agents[j].id, sk.id)};
            added := added + 1;
          }
          assert agents[..|agents|] == agents;
        }
        WantedOneMore(skills, agents, i);
      }
      assert skills[..|skills|] == skills;
    }

    /** The prune: every binding of a supervisor other than the builder's is looked at once. */
    method Prune() returns (pruned: nat)
      requires Keyed(skills, agents)
      modifies this`bindings
      ensures forall p :: p in bindings <==> p in old(bindings) && !Stray(p, skills, agents)
      ensures pruned == |old(bindings)| - |bindings|
    {
      pruned := 0;
      var rest := bindings;
      while rest != {}
        invariant rest <= bindings <= old(bindings)
        invariant forall p | p in old(bindings) - rest :: p in bindings <==> !Stray(p, skills, agents)
        invariant pruned == |old(bindings)| - |bindings|
        decreases |rest|
      {
        var p :| p in rest;
        rest := rest - {p};
        var superAgent, scope := LookUp(p);
        if superAgent && scope == Some("worker") {
          bindings := bindings - {p};
          pruned := pruned + 1;
        }
      }
    }

    /** The agent's place in super_ids and the skill's entry in scope_by_skill. */
    method LookUp(p: Pair) returns (superAgent: bool, scope: Option<string>)
      requires Keyed(skills, agents)
      ensures superAgent && scope == Some("worker") <==> Stray(p, skills, agents)
    {
      superAgent, scope := false, None;
      for j := 0 to |agents|
        invariant superAgent <==> exists l :: 0 <= l < j && PrunedSuper(agents[l], p)
      {
        if agents[j].id == p.agent && agents[j].kind == "super" && !IsBuilderSuper(agents[j]) {
          superAgent := true;
          assert PrunedSuper(agents[j], p);
        }
      }
      for i := 0 to |skills|
        invariant scope == None <==> forall k | 0 <= k < i :: !(skills[k].id == p.skill && Considered(skills[k]))
        invariant scope.Some? ==>
            exists k :: 0 <= k < i && skills[k].id == p.skill && Considered(skills[k]) && scope == skills[k].scope
      {
        if Considered(skills[i]) && skills[i].id == p.skill {
          scope := skills[i].scope;
        }
      }
      if superAgent && scope == Some("worker") {
        var l :| 0 <= l < |agents| && PrunedSuper(agents[l], p);
        var k :| 0 <= k < |skills| && skills[k].id == p.skill && Considered(skills[k]) && scope == skills[k].scope;
        assert Offends(skills[k], agents[l], p);
      }
      if Stray(p, skills, agents) {
        var k, l :| 0 <= k < |skills| && 0 <= l < |agents| && Offends(skills[k], agents[l], p);
        assert PrunedSuper(agents[l], p);
        assert Considered(skills[k]);
      }
    }

    /** The startup job; the answer is the number of bindings added. */
    method Reconcile() returns (added: nat)
      requires Keyed(skills, agents)
      modifies this
      ensures agents == old(agents) && skills == RescopeAll(old(skills))
      ensures IsReconciled(bindings, old(bindings), skills, agents)
      ensures added == |set p | p in bindings && p !in old(bindings)|
    {
      RescopeInstalled();
      assert Keyed(skills, agents);
      added := Backfill();
      ghost var filled := bindings;
      var pruned := Prune();
      forall p ensures !(Wanted(p, skills, agents) && Stray(p, skills, agents)) {
        WantedIsNoStray(p, skills, agents);
      }
      NewPairs(old(bindings), filled);
      assert (set p | p in bindings && p !in old(bindings)) == filled - old(bindings);
    }
  }

  lemma NewPairs(before: set<Pair>, after: set<Pair>)
    requires before <= after
    ensures |after - before| == |after| - |before|
  {
  }

  predicate PrunedSuper(a: Agent, p: Pair) {
    a.id == p.agent && a.kind == "super" && !IsBuilderSuper(a)
  }

  ghost predicate AsksAny(p: Pair, s: Skill, agents: seq<Agent>) {
    exists j :: 0 <= j < |agents| && Asks(s, agents[j], p)
  }

  lemma AsksOneMore(s: Skill, agents: seq<Agent>, j: nat)
    requires j < |agents|
    ensures forall p :: AsksAny(p, s, agents[..j + 1]) <==> AsksAny(p, s, agents[..j]) || Asks(s, agents[j], p)
  {
    forall p ensures AsksAny(p, s, agents[..j + 1]) <==> AsksAny(p, s, agents[..j]) || Asks(s, agents[j], p) {
      assert forall k | 0 <= k < j :: agents[..j + 1][k] == agents[..j][k];
      assert agents[..j + 1][j] == agents[j];
    }
  }

  lemma WantedOneMore(skills: seq<Skill>, agents: seq<Agent>, i: nat)
    requires i < |skills|
    ensures forall p ::
              Wanted(p, skills[..i + 1], agents) <==> Wanted(p, skills[..i], agents) || AsksAny(p, skills[i], agents)
  {
    forall p
      ensures Wanted(p, skills[..i + 1], agents) <==> Wanted(p, skills[..i], agents) || AsksAny(p, skills[i], agents)
    {
      assert forall k | 0 <= k < i :: skills[..i + 1][k] == skills[..i][k];
      assert skills[..i + 1][i] == skills[i];
    }
  }

  // ---------------------------------------------------------------- what the job achieves

  /** The job is a fixpoint: run again on its own result, it rescopes, adds and prunes nothing. */
  lemma SecondRunChangesNothing(
      skills: seq<Skill>, agents: seq<Agent>, before: set<Pair>, after: set<Pair>, again: set<Pair>)
    requires Keyed(skills, agents)
    requires IsReconciled(after, before, RescopeAll(skills), agents)
    requires IsReconciled(again, after, RescopeAll(RescopeAll(skills)), agents)
    ensures RescopeAll(RescopeAll(skills)) == RescopeAll(skills)
    ensures again == after
    ensures forall p | Wanted(p, RescopeAll(skills), agents) :: p in after
    ensures forall p | p in after :: !Stray(p, RescopeAll(skills), agents)
  {
  }

  /** The builder's supervisor loses nothing, and neither does an agent of any kind but super. */
  lemma OnlyOrdinarySupersLose(
      skills: seq<Skill>, agents: seq<Agent>, before: set<Pair>, after: set<Pair>, p: Pair, j: nat)
    requires Keyed(skills, agents) && IsReconciled(after, before, skills, agents)
    requires j < |agents| && p.agent == agents[j].id && (agents[j].kind != "super" || IsBuilderSuper(agents[j]))
    ensures p in before ==> p in after
  {
  }

  /**
  The one-off correction is meant for unscoped installed skills too. It reaches them all exactly
  when none of them has a null scope; a null-scoped one is also never bound or pruned afterwards.
  */
  lemma RescopingReachesAllIff(skills: seq<Skill>)
    ensures (forall i | 0 <= i < |skills| && Unscoped(skills[i]) :: RescopeAll(skills)[i].scope == Some("worker"))
            <==> forall i | 0 <= i < |skills| && Unscoped(skills[i]) :: skills[i].scope != None
  {
  }

  /** An installed remote skill that nobody has narrowed: scope 'all' or none. */
  predicate Unscoped(s: Skill) {
    !s.builtin && s.ref == Some("remote_skill_invoke") && (s.scope == Some("all") || s.scope == None)
  }

  lemma NullScopeIsInert(skills: seq<Skill>, agents: seq<Agent>, before: set<Pair>, after: set<Pair>, i: nat, p: Pair)
    requires Keyed(skills, agents) && IsReconciled(after, before, RescopeAll(skills), agents)
    requires i < |skills| && skills[i].scope == None && p.skill == skills[i].id
    ensures p in after <==> p in before
  {
  }

  // ---------------------------------------------------------------- in plain words

  /** What the correction does to one skill. */
  lemma RescopingOfOne(skills: seq<Skill>, i: nat)
    requires i < |skills|
    ensures |RescopeAll(skills)| == |skills|
    ensures var s, now := skills[i], RescopeAll(skills)[i];
            if !s.builtin && s.ref == Some("remote_skill_invoke") && s.scope == Some("all")
            then now == Skill(s.id, s.enabled, s.builtin, s.ref, Some("worker"), Some("io"))
            else now == s
  {
  }

  /**
  What the job does to one pair of a skill and an agent: an enabled skill for all is bound to every
  super and worker, one for supers to every super, one for workers to every worker and to no super
  but the builder's, where it stays as it was; nothing else is bound or unbound.
  */
  lemma ReconciledPair(skills: seq<Skill>, agents: seq<Agent>, before: set<Pair>, after: set<Pair>, i: nat, j: nat)
    requires Keyed(skills, agents) && IsReconciled(after, before, skills, agents) && i < |skills| && j < |agents|
    ensures var s, a, p := skills[i], agents[j], Pair(agents[j].id, skills[i].id);
            var builder := a.category == Some("builder") && a.slug == Some("builder");
            p in after <==>
              if s.enabled && s.scope == Some("all") && a.kind in {"super", "worker"} then true
              else if s.enabled && s.scope == Some("super") && a.kind == "super" then true
              else if s.enabled && s.scope == Some("worker") && a.kind == "worker" then true
              else if s.enabled && s.scope == Some("worker") && a.kind == "super" && !builder then false
              else p in before
  {
    hide Keyed;
    var p := Pair(agents[j].id, skills[i].id);
    if Wanted(p, skills, agents) {
      var k, l :| 0 <= k < |skills| && 0 <= l < |agents| && Asks(skills[k], agents[l], p);
      SameKeys(skills, agents, i, k, j, l);
    }
    if Stray(p, skills, agents) {
      var k, l :| 0 <= k < |skills| && 0 <= l < |agents| && Offends(skills[k], agents[l], p);
      SameKeys(skills, agents, i, k, j, l);
    }
    assert Asks(skills[i], agents[j], p) ==> Wanted(p, skills, agents);
    assert Offends(skills[i], agents[j], p) ==> Stray(p, skills, agents);
  }

  lemma SameKeys(skills: seq<Skill>, agents: seq<Agent>, i: nat, k: nat, j: nat, l: nat)
    requires Keyed(skills, agents) && i < |skills| && k < |skills| && j < |agents| && l < |agents|
    ensures skills[i].id == skills[k].id ==> i == k
    ensures agents[j].id == agents[l].id ==> j == l
  {
  }
}
