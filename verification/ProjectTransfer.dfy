/** Moving a project to another workspace with its secrets, re-encrypted, and its agents. */
module ProjectTransfer {
  import opened Text
  import opened Secrets
  import Tenancy
  import RequestLaws

  datatype Agent = Agent(project: Option<nat>, workspace: nat)

  datatype Store = Store(projects: map<nat, Project>, secrets: Table, agents: map<nat, Agent>)

  datatype Error = NotFound | Authorization | BodyValidation | Conflict

  /** The unique constraint on (workspace, name). */
  ghost predicate NamesUnique(projects: map<nat, Project>) {
    forall p, q :: p in projects && q in projects && projects[p] == projects[q] ==> p == q
  }

  predicate Named(projects: map<nat, Project>, name: Project) {
    exists p :: p in projects && projects[p] == name
  }

  /** Why a transfer of project `name` from workspace `w` to `target` is refused, in the order the checks are made. */
  function Refusal(t: Tenancy.State, projects: map<nat, Project>, user: nat, w: nat, name: string, target: nat)
    : Option<Error>
  {
    if !Named(projects, Project(w, Lower(name))) then Some(NotFound)
    else if !Tenancy.Manages(t, user, w) then Some(Authorization)
    else if target == w then Some(BodyValidation)
    else if target !in t.workspaces then Some(NotFound)
    else if !Tenancy.Manages(t, user, target) then Some(Authorization)
    else if Named(projects, Project(target, Lower(name))) then Some(Conflict)
    else None
  }

  /** The value a request lists for a secret; the last one counts. */
  function LastListed(listed: seq<(nat, string)>, a: nat): Option<string> {
    if listed == [] then None
    else if listed[|listed| - 1].0 == a then Some(listed[|listed| - 1].1)
    else LastListed(listed[..|listed| - 1], a)
  }

  /** Secrets of project `p` that the request lists. */
  function Resealed(secrets: Table, p: nat, listed: seq<(nat, string)>): set<nat> {
    set a | a in secrets && secrets[a].project == p && LastListed(listed, a).Some?
  }

  /** `seal(a, v)` is the encryption of `v` made for secret `a`. */
  function MovedSecrets(secrets: Table, p: nat, listed: seq<(nat, string)>, seal: (nat, string) -> string): Table {
    map a | a in secrets ::
      if secrets[a].project == p && LastListed(listed, a).Some?
      then secrets[a].(value := seal(a, LastListed(listed, a).value)) else secrets[a]
  }

  function MovedAgents(agents: map<nat, Agent>, p: nat, target: nat): map<nat, Agent> {
    map g | g in agents :: if agents[g].project == Some(p) then agents[g].(workspace := target) else agents[g]
  }

  function Moved(s: Store, p: nat, target: nat, listed: seq<(nat, string)>, seal: (nat, string) -> string): Store
    requires p in s.projects
  {
    Store(s.projects[p := s.projects[p].(workspace := target)],
          MovedSecrets(s.secrets, p, listed, seal),
          MovedAgents(s.agents, p, target))
  }

  // ---------------------------------------------------------------- the service

  class ProjectStore {
    var projects: map<nat, Project>
    var secrets: Table
    var agents: map<nat, Agent>

    ghost function Abstract(): Store
      reads this
    {
      Store(projects, secrets, agents)
    }

    ghost predicate Valid()
      reads this
    {
      NamesUnique(projects) && Unique(secrets)
    }

    method Check(t: Tenancy.State, user: nat, w: nat, name: string, target: nat)
      returns (error: Option<Error>, project: nat)
      ensures error == Refusal(t, projects, user, w, name, target)
      ensures error.None? ==> project in projects && projects[project] == Project(w, Lower(name))
    {
      project := 0;
      if !Named(projects, Project(w, Lower(name))) { return Some(NotFound), 0; }
      project :| project in projects && projects[project] == Project(w, Lower(name));
      if !Tenancy.ActiveIn(t, user, w) { return Some(Authorization), 0; }
      if !Tenancy.Manages(t, user, w) { return Some(Authorization), 0; }
      if target == w { return Some(BodyValidation), 0; }
      if target !in t.workspaces { return Some(NotFound), 0; }
      if !Tenancy.Manages(t, user, target) { return Some(Authorization), 0; }
      if Named(projects, Project(target, projects[project].name)) { return Some(Conflict), 0; }
      return None, project;
    }

    /** `{str(item.id): item.value for item in data.secrets}`. */
    method Reencrypted(listed: seq<(nat, string)>) returns (values: map<nat, string>)
      ensures forall a :: a in values <==> LastListed(listed, a).Some?
      ensures forall a :: a in values ==> Some(values[a]) == LastListed(listed, a)
    {
      values := map[];
      for i := 0 to |listed|
        invariant forall a :: a in values <==> LastListed(listed[..i], a).Some?
        invariant forall a :: a in values ==> Some(values[a]) == LastListed(listed[..i], a)
      {
        assert listed[..i + 1][..i] == listed[..i];
        values := values[listed[i].0 := listed[i].1];
      }
      assert listed[..|listed|] == listed;
    }

    /** Goes through the project's rows and saves those the request lists. */
    method Reseal(project: nat, values: map<nat, string>, listed: seq<(nat, string)>, seal: (nat, string) -> string)
      returns (count: nat)
      requires forall a :: a in values <==> LastListed(listed, a).Some?
      requires forall a :: a in values ==> Some(values[a]) == LastListed(listed, a)
      modifies this`secrets
      ensures secrets == MovedSecrets(old(secrets), project, listed, seal)
      ensures count == |Resealed(old(secrets), project, listed)|
    {
      var rows := set a | a in secrets && secrets[a].project == project;
      var todo, updated: set<nat> := rows, {};
      while todo != {}
        invariant todo <= rows && updated <= rows - todo
        invariant forall a :: a in rows - todo ==> (a in updated <==> a in values)
        invariant secrets.Keys == old(secrets).Keys
        invariant forall a :: a in secrets ==>
          secrets[a] == if a in updated then old(secrets)[a].(value := seal(a, values[a])) else old(secrets)[a]
      {
        var a :| a in todo;
        todo := todo - {a};
        if a in values {
          secrets := secrets[a := secrets[a].(value := seal(a, values[a]))];
          updated := updated + {a};
        }
      }
      assert updated == Resealed(old(secrets), project, listed);
      return |updated|;
    }

    method TransferProject(t: Tenancy.State, user: nat, w: nat, name: string, target: nat, listed: seq<(nat, string)>,
                           seal: (nat, string) -> string)
      returns (error: Option<Error>, count: nat, ghost project: nat)
      requires Valid()
      modifies this
      ensures Valid()
      ensures error == Refusal(t, old(projects), user, w, name, target)
      ensures error.Some? ==> Abstract() == old(Abstract())
      ensures error.None? ==> project in old(projects) && old(projects)[project] == Project(w, Lower(name))
      ensures error.None? ==> Abstract() == Moved(old(Abstract()), project, target, listed, seal)
      ensures error.None? ==> count == |Resealed(old(secrets), project, listed)|
    {
      ghost var before := Abstract();
      var p;
      error, p := Check(t, user, w, name, target);
      count, project := 0, p;
      if error.Some? { return; }
      var values := Reencrypted(listed);
      projects := projects[p := projects[p].(workspace := target)];
      count := Reseal(p, values, listed, seal);
      agents := map g | g in agents ::
        if agents[g].project == Some(p) then agents[g].(workspace := target) else agents[g];
      TransferKeepsConstraints(before, p, target, listed, seal);
    }
  }

  // ---------------------------------------------------------------- who may move what

  ghost predicate HoldsName(projects: map<nat, Project>, w: nat, name: string) {
    exists p :: p in projects && projects[p].workspace == w && projects[p].name == name
  }

  /** A transfer takes an owner or admin of both workspaces, an existing other target, and a name free there; what is
      missing first, in this order, is the error. */
  lemma RefusedExactly(t: Tenancy.State, projects: map<nat, Project>, user: nat, w: nat, name: string, target: nat)
    ensures var refusal := Refusal(t, projects, user, w, name, target);
            var found := HoldsName(projects, w, Lower(name));
            var here, there := RequestLaws.Controls(t, user, w), RequestLaws.Controls(t, user, target);
            var other, exists', taken := target != w, target in t.workspaces, HoldsName(projects, target, Lower(name));
            && (refusal == None <==> found && here && other && exists' && there && !taken)
            && (refusal == Some(NotFound) <==> !found || (here && other && !exists'))
            && (refusal == Some(Authorization) <==> found && (!here || (other && exists' && !there)))
            && (refusal == Some(BodyValidation) <==> found && here && !other)
            && (refusal == Some(Conflict) <==> found && here && other && exists' && there && taken)
  {
    NamedExactly(projects, w, Lower(name));
    NamedExactly(projects, target, Lower(name));
  }

  lemma NamedExactly(projects: map<nat, Project>, w: nat, name: string)
    ensures Named(projects, Project(w, name)) <==> HoldsName(projects, w, name)
  {
    if p :| p in projects && projects[p].workspace == w && projects[p].name == name {
      assert projects[p] == Project(w, name);
    }
  }

  /** The request's last entry for a secret. */
  predicate LastEntry(listed: seq<(nat, string)>, a: nat, i: nat) {
    i < |listed| && listed[i].0 == a && forall j :: i < j < |listed| ==> listed[j].0 != a
  }

  lemma {:induction false} LastListedExactly(listed: seq<(nat, string)>, a: nat)
    ensures forall i: nat :: LastEntry(listed, a, i) ==> LastListed(listed, a) == Some(listed[i].1)
    ensures LastListed(listed, a).Some? <==> exists i: nat :: LastEntry(listed, a, i)
  {
    if listed != [] {
      var n := |listed| - 1;
      var before := listed[..n];
      LastListedExactly(before, a);
      if listed[n].0 == a {
        assert LastEntry(listed, a, n);
      } else {
        forall i: nat ensures LastEntry(listed, a, i) <==> LastEntry(before, a, i) {}
      }
    }
  }

  /** Every row after a move: the project sits in the target under its name, its listed secrets hold their last listed
      values sealed, its agents sit in the target, and nothing else changed. */
  lemma MovedExactly(s: Store, p: nat, target: nat, listed: seq<(nat, string)>, seal: (nat, string) -> string,
                     q: nat, a: nat, g: nat)
    requires p in s.projects
    ensures var after := Moved(s, p, target, listed, seal);
            && after.projects.Keys == s.projects.Keys && after.secrets.Keys == s.secrets.Keys
            && after.agents.Keys == s.agents.Keys
            && (q in s.projects ==>
                  after.projects[q] == if q == p then Project(target, s.projects[p].name) else s.projects[q])
            && (a in s.secrets && s.secrets[a].project == p ==>
                  forall i: nat :: LastEntry(listed, a, i) ==>
                    after.secrets[a] == s.secrets[a].(value := seal(a, listed[i].1)))
            && (a in s.secrets && (s.secrets[a].project != p || forall i: nat :: !LastEntry(listed, a, i)) ==>
                  after.secrets[a] == s.secrets[a])
            && (g in s.agents ==>
                  after.agents[g]
                  == if s.agents[g].project == Some(p) then Agent(Some(p), target) else s.agents[g])
  {
    LastListedExactly(listed, a);
  }

  // ---------------------------------------------------------------- what a transfer keeps

  /** The name check is what keeps (workspace, name) unique; the secrets' own constraint cannot be broken by a move. */
  lemma TransferKeepsConstraints(s: Store, p: nat, target: nat, listed: seq<(nat, string)>,
                                 seal: (nat, string) -> string)
    requires NamesUnique(s.projects) && Unique(s.secrets) && p in s.projects
    requires !Named(s.projects, s.projects[p].(workspace := target))
    ensures NamesUnique(Moved(s, p, target, listed, seal).projects)
    ensures Unique(Moved(s, p, target, listed, seal).secrets)
  {
  }

  /** A secret keeps its id, project, environment, key and policy; its value changes only if it is the project's and
      listed, and then decrypts to the last listed value. */
  lemma SecretsConserved(s: Store, p: nat, target: nat, listed: seq<(nat, string)>, seal: (nat, string) -> string,
                         open: string -> Option<string>, a: nat)
    requires p in s.projects && a in s.secrets
    requires forall v :: open(seal(a, v)) == Some(v)
    ensures var after := Moved(s, p, target, listed, seal).secrets;
            && after.Keys == s.secrets.Keys
            && after[a].(value := "") == s.secrets[a].(value := "")
            && (a !in Resealed(s.secrets, p, listed) ==> after[a] == s.secrets[a])
            && (a in Resealed(s.secrets, p, listed) ==> open(after[a].value) == LastListed(listed, a))
  {
  }

  /** A second move of the same project wins over the first: only the last target and the last listed values show. */
  lemma MovesCompose(s: Store, p: nat, v: nat, w: nat, first: seq<(nat, string)>, second: seq<(nat, string)>,
                     seal: (nat, string) -> string)
    requires p in s.projects
    ensures Moved(Moved(s, p, v, first, seal), p, w, second, seal) == Moved(s, p, w, first + second, seal)
  {
    var once := MovedSecrets(s.secrets, p, first, seal);
    forall a | a in s.secrets
      ensures MovedSecrets(once, p, second, seal)[a] == MovedSecrets(s.secrets, p, first + second, seal)[a]
    {
      ListedConcat(first, second, a);
    }
    assert MovedSecrets(once, p, second, seal) == MovedSecrets(s.secrets, p, first + second, seal);
    assert MovedAgents(MovedAgents(s.agents, p, v), p, w) == MovedAgents(s.agents, p, w);
  }

  lemma {:induction false} ListedConcat(first: seq<(nat, string)>, second: seq<(nat, string)>, a: nat)
    ensures LastListed(first + second, a)
            == if LastListed(second, a).Some? then LastListed(second, a) else LastListed(first, a)
  {
    if second == [] {
      assert first + second == first;
    } else {
      var n := |second| - 1;
      ListedConcat(first, second[..n], a);
      assert (first + second)[..|first + second| - 1] == first + second[..n];
    }
  }

  ghost predicate AgentsAt(agents: map<nat, Agent>, p: nat, w: nat) {
    forall g :: g in agents && agents[g].project == Some(p) ==> agents[g].workspace == w
  }

  /** Moving there and back restores everything exactly when the project's agents all sat in its own workspace. */
  lemma ThereAndBack(s: Store, p: nat, target: nat, seal: (nat, string) -> string)
    requires p in s.projects
    ensures AgentsAt(Moved(s, p, target, [], seal).agents, p, target)
    ensures Moved(Moved(s, p, target, [], seal), p, s.projects[p].workspace, [], seal) == s
            <==> AgentsAt(s.agents, p, s.projects[p].workspace)
  {
  }
}
