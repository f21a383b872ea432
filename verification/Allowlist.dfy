/** One workspace's domain allowlist and its log. A bulk add reads first and inserts later in a transaction, so other
    requests may run in between; a removal is taken as one step. */
module Allowlist {
  import opened Text

  datatype Action = Added | Removed

  datatype Event = Event(domain: string, action: Action)

  datatype Caller = Outsider | Member | Admin

  datatype Error = NotFound | Authorization | NothingNew | Duplicate

  datatype State = State(domains: set<string>, log: seq<Event>)

  // ---------------------------------------------------------------- the operations on values

  /** `[d for d in domains if d not in existing]`. */
  function NewDomains(present: set<string>, requested: seq<string>): (fresh': seq<string>)
    ensures forall d :: d in fresh' <==> d in requested && d !in present
  {
    if requested == [] then []
    else
      var before, d := NewDomains(present, requested[..|requested| - 1]), requested[|requested| - 1];
      if d in present then before else before + [d]
  }

  predicate NoRepeats(domains: seq<string>) {
    forall i, j :: 0 <= i < j < |domains| ==> domains[i] != domains[j]
  }

  /** One row and one log entry for each domain. */
  function AddAll(s: State, domains: seq<string>): State {
    if domains == [] then s
    else
      var before, d := AddAll(s, domains[..|domains| - 1]), domains[|domains| - 1];
      State(before.domains + {d}, before.log + [Event(d, Added)])
  }

  /** The transaction: the unique constraint on (workspace, domain) makes it all or nothing. */
  function Insert(s: State, domains: seq<string>): Result<State, Error> {
    if !NoRepeats(domains) || exists d :: d in domains && d in s.domains then Err(Duplicate)
    else Ok(AddAll(s, domains))
  }

  function Read(s: State, caller: Caller, requested: seq<string>): Result<seq<string>, Error> {
    if caller.Outsider? then Err(NotFound)
    else if !caller.Admin? then Err(Authorization)
    else if NewDomains(s.domains, requested) == [] then Err(NothingNew)
    else Ok(NewDomains(s.domains, requested))
  }

  function Remove(s: State, caller: Caller, domain: string): Result<State, Error> {
    if caller.Outsider? then Err(NotFound)
    else if !caller.Admin? then Err(Authorization)
    else if Lower(domain) !in s.domains then Err(NotFound)
    else Ok(State(s.domains - {Lower(domain)}, s.log + [Event(Lower(domain), Removed)]))
  }

  // ---------------------------------------------------------------- the service

  class AllowlistService {
    var domains: set<string>
    var log: seq<Event>

    function Abstract(): State
      reads this
    {
      State(domains, log)
    }

    constructor ()
      ensures Abstract() == State({}, [])
    {
      domains, log := {}, [];
    }

    /** The first half of `bulk_add_domains`: what is asked for and not there yet. */
    method ReadNew(caller: Caller, requested: seq<string>) returns (r: Result<seq<string>, Error>)
      ensures r == Read(Abstract(), caller, requested)
    {
      if caller.Outsider? {
        return Err(NotFound);
      } else if !caller.Admin? {
        return Err(Authorization);
      }
      var existing := set d | d in requested && d in domains;
      var newDomains := [];
      for i := 0 to |requested|
        invariant newDomains == NewDomains(domains, requested[..i])
      {
        assert requested[..i + 1][..i] == requested[..i];
        if requested[i] !in existing {
          newDomains := newDomains + [requested[i]];
        }
      }
      assert requested[..|requested|] == requested;
      return if newDomains == [] then Err(NothingNew) else Ok(newDomains);
    }

    /** The second half, `_insert_records`: rows first, then the log; a duplicate rolls everything back. */
    method InsertRecords(newDomains: seq<string>) returns (r: Result<(), Error>)
      modifies this
      ensures match Insert(old(Abstract()), newDomains)
              case Ok(s) => Abstract() == s && r == Ok(())
              case Err(e) => Abstract() == old(Abstract()) && r == Err(e)
    {
      var rows, entries := domains, log;
      for i := 0 to |newDomains|
        invariant State(rows, entries) == AddAll(Abstract(), newDomains[..i])
        invariant rows == domains + set d | d in newDomains[..i]
        invariant NoRepeats(newDomains[..i]) && forall d :: d in newDomains[..i] ==> d !in domains
      {
        assert newDomains[..i + 1][..i] == newDomains[..i];
        if newDomains[i] in rows {
          return Err(Duplicate);
        }
        rows := rows + {newDomains[i]};
        entries := entries + [Event(newDomains[i], Added)];
      }
      assert newDomains[..|newDomains|] == newDomains;
      domains, log := rows, entries;
      return Ok(());
    }

    method RemoveDomain(caller: Caller, domain: string) returns (r: Result<(), Error>)
      modifies this
      ensures match Remove(old(Abstract()), caller, domain)
              case Ok(s) => Abstract() == s && r == Ok(())
              case Err(e) => Abstract() == old(Abstract()) && r == Err(e)
    {
      if caller.Outsider? {
        return Err(NotFound);
      } else if !caller.Admin? {
        return Err(Authorization);
      }
      var entry := Lower(domain);
      if entry !in domains {
        return Err(NotFound);
      }
      domains := domains - {entry};
      log := log + [Event(entry, Removed)];
      return Ok(());
    }
  }

  // ---------------------------------------------------------------- who may change it, and how

  /** The read half refuses strangers, then members, then lists without a new domain. */
  lemma ReadExactly(s: State, caller: Caller, requested: seq<string>)
    ensures Read(s, caller, requested) == Err(NotFound) <==> caller == Outsider
    ensures Read(s, caller, requested) == Err(Authorization) <==> caller == Member
    ensures Read(s, caller, requested) == Err(NothingNew)
            <==> caller == Admin && forall d :: d in requested ==> d in s.domains
    ensures Read(s, caller, requested) != Err(Duplicate)
    ensures Read(s, caller, requested).Ok? ==> Read(s, caller, requested).value == NewDomains(s.domains, requested)
  {
    if NewDomains(s.domains, requested) != [] {
      assert NewDomains(s.domains, requested)[0] in NewDomains(s.domains, requested);
    }
  }

  lemma NewDomainsSnoc(present: set<string>, a: seq<string>, d: string)
    ensures NewDomains(present, a + [d]) == NewDomains(present, a) + if d in present then [] else [d]
  {
    assert (a + [d])[..|a|] == a;
  }

  lemma NewDomainsStep(present: set<string>, a: seq<string>, before: seq<string>, last: string)
    requires NewDomains(present, a + before) == NewDomains(present, a) + NewDomains(present, before)
    ensures NewDomains(present, a + (before + [last])) == NewDomains(present, a) + NewDomains(present, before + [last])
  {
    var tail := if last in present then [] else [last];
    Associate(a, before, [last]);
    NewDomainsSnoc(present, a + before, last);
    NewDomainsSnoc(present, before, last);
    Associate(NewDomains(present, a), NewDomains(present, before), tail);
  }

  /** The new domains keep the order and the repetitions of the request. */
  lemma {:induction false} NewDomainsConcat(present: set<string>, a: seq<string>, b: seq<string>)
    ensures NewDomains(present, a + b) == NewDomains(present, a) + NewDomains(present, b)
  {
    if b == [] {
      assert a + b == a;
    } else {
      var before, last := b[..|b| - 1], b[|b| - 1];
      NewDomainsConcat(present, a, before);
      assert b == before + [last];
      NewDomainsStep(present, a, before, last);
    }
  }

  lemma NewDomainsSingle(present: set<string>, d: string)
    ensures NewDomains(present, [d]) == if d in present then [] else [d]
  {
    NewDomainsSnoc(present, [], d);
    assert [] + [d] == [d];
  }

  /** The insert half succeeds exactly for different domains that are not there, adds them, and logs them in order. */
  lemma InsertExactly(s: State, domains: seq<string>)
    ensures Insert(s, domains).Ok?
            <==> (forall i, j :: 0 <= i < j < |domains| ==> domains[i] != domains[j])
                 && forall i :: 0 <= i < |domains| ==> domains[i] !in s.domains
    ensures Insert(s, domains).Err? ==> Insert(s, domains).error == Duplicate
    ensures Insert(s, domains).Ok? ==>
              var after := Insert(s, domains).value;
              && (forall d :: d in after.domains <==> d in s.domains || d in domains)
              && |after.log| == |s.log| + |domains| && after.log[..|s.log|] == s.log
              && forall i :: 0 <= i < |domains| ==> after.log[|s.log| + i] == Event(domains[i], Added)
  {
    AddAllExactly(s, domains);
  }

  lemma {:induction false} AddAllExactly(s: State, domains: seq<string>)
    ensures var after := AddAll(s, domains);
            && (forall d :: d in after.domains <==> d in s.domains || d in domains)
            && |after.log| == |s.log| + |domains| && after.log[..|s.log|] == s.log
            && forall i :: 0 <= i < |domains| ==> after.log[|s.log| + i] == Event(domains[i], Added)
  {
    if domains != [] {
      var n := |domains| - 1;
      AddAllExactly(s, domains[..n]);
      assert domains == domains[..n] + [domains[n]];
    }
  }

  /** A removal takes an admin and a domain that is there, in lower case. */
  lemma RemoveExactly(s: State, caller: Caller, domain: string)
    ensures Remove(s, caller, domain) == Err(NotFound)
            <==> caller == Outsider || (caller == Admin && Lower(domain) !in s.domains)
    ensures Remove(s, caller, domain) == Err(Authorization) <==> caller == Member
    ensures Remove(s, caller, domain).Ok? <==> caller == Admin && Lower(domain) in s.domains
    ensures Remove(s, caller, domain).Ok? ==>
              var after := Remove(s, caller, domain).value;
              && (forall d :: d in after.domains <==> d in s.domains && d != Lower(domain))
              && after.log == s.log + [Event(Lower(domain), Removed)]
  {
  }

  // ---------------------------------------------------------------- interleaved runs

  /** A request in flight has read but not inserted; it is named by a number. */
  datatype Op =
    | BeginAdd(request: nat, caller: Caller, requested: seq<string>)
    | CommitAdd(request: nat)
    | RemoveOne(caller: Caller, domain: string)

  datatype System = System(state: State, pending: map<nat, seq<string>>)

  function Step(y: System, op: Op): System {
    match op
    case BeginAdd(request, caller, requested) =>
      var r := Read(y.state, caller, requested);
      if r.Ok? then y.(pending := y.pending[request := r.value]) else y
    case CommitAdd(request) =>
      if request !in y.pending then y
      else
        var r := Insert(y.state, y.pending[request]);
        System(if r.Ok? then r.value else y.state, y.pending - {request})
    case RemoveOne(caller, domain) =>
      var r := Remove(y.state, caller, domain);
      if r.Ok? then y.(state := r.value) else y
  }

  /** The system after the first `n` operations, starting empty. */
  function After(ops: seq<Op>, n: nat): System
    requires n <= |ops|
  {
    if n == 0 then System(State({}, []), map[]) else Step(After(ops, n - 1), ops[n - 1])
  }

  // ---------------------------------------------------------------- the log tells the state

  /** The allowlist that the log describes. */
  function Replay(log: seq<Event>): set<string> {
    if log == [] then {}
    else
      var before, e := Replay(log[..|log| - 1]), log[|log| - 1];
      if e.action.Added? then before + {e.domain} else before - {e.domain}
  }

  /** The actions on one domain, oldest first. */
  function History(log: seq<Event>, domain: string): seq<Action> {
    if log == [] then []
    else
      var before, e := History(log[..|log| - 1], domain), log[|log| - 1];
      if e.domain == domain then before + [e.action] else before
  }

  function Total(log: seq<Event>, action: Action): nat {
    if log == [] then 0
    else Total(log[..|log| - 1], action) + if log[|log| - 1].action == action then 1 else 0
  }

  predicate Alternates(actions: seq<Action>) {
    forall i :: 0 <= i < |actions| ==> (actions[i].Added? <==> i % 2 == 0)
  }

  function Present(actions: seq<Action>): bool {
    actions != [] && actions[|actions| - 1].Added?
  }

  /** A domain's entries alternate, starting with `added`, and it is there exactly when the last one is `added`. */
  predicate AgreeOn(s: State, d: string) {
    Alternates(History(s.log, d)) && (d in s.domains <==> Present(History(s.log, d)))
  }

  /** The log and the allowlist agree, domain by domain, by replay and in size. */
  ghost predicate Agree(s: State) {
    && (forall d :: AgreeOn(s, d))
    && s.domains == Replay(s.log)
    && Total(s.log, Added) - Total(s.log, Removed) == |s.domains|
  }

  function Apply(s: State, e: Event): State {
    State(if e.action.Added? then s.domains + {e.domain} else s.domains - {e.domain}, s.log + [e])
  }

  lemma LogStepOn(s: State, e: Event, d: string)
    requires AgreeOn(s, d) && (e.domain == d ==> (e.action.Added? <==> d !in s.domains))
    ensures AgreeOn(Apply(s, e), d)
  {
  }

  lemma LogStep(s: State, e: Event)
    requires Agree(s) && (e.action.Added? <==> e.domain !in s.domains)
    ensures Agree(Apply(s, e))
  {
    var log := s.log + [e];
    assert log[..|log| - 1] == s.log;
    forall d ensures AgreeOn(Apply(s, e), d) {
      LogStepOn(s, e, d);
    }
  }

  lemma {:induction false} LogAdds(s: State, domains: seq<string>)
    requires Agree(s) && NoRepeats(domains) && forall d :: d in domains ==> d !in s.domains
    ensures Agree(AddAll(s, domains)) && AddAll(s, domains).domains == s.domains + set d | d in domains
    decreases |domains|
  {
    if domains != [] {
      var n := |domains| - 1;
      var before := domains[..n];
      assert domains == before + [domains[n]];
      LogAdds(s, before);
      LogStep(AddAll(s, before), Event(domains[n], Added));
    }
  }

  lemma CommitAgrees(y: System, request: nat)
    requires Agree(y.state)
    ensures Agree(Step(y, CommitAdd(request)).state)
  {
    if request in y.pending && Insert(y.state, y.pending[request]).Ok? {
      LogAdds(y.state, y.pending[request]);
    }
  }

  lemma RemoveAgrees(s: State, caller: Caller, domain: string)
    requires Agree(s) && Remove(s, caller, domain).Ok?
    ensures Agree(Remove(s, caller, domain).value)
  {
    LogStep(s, Event(Lower(domain), Removed));
    assert Remove(s, caller, domain).value == Apply(s, Event(Lower(domain), Removed));
  }

  /** Whatever the interleaving of reads, inserts and removals, the log tells the allowlist. */
  lemma {:induction false} LogTellsAllowlist(ops: seq<Op>, n: nat)
    requires n <= |ops|
    ensures Agree(After(ops, n).state)
  {
    if n > 0 {
      LogTellsAllowlist(ops, n - 1);
      var y := After(ops, n - 1);
      match ops[n - 1]
      case BeginAdd(_, _, _) =>
      case CommitAdd(request) => CommitAgrees(y, request);
      case RemoveOne(caller, domain) =>
        if Remove(y.state, caller, domain).Ok? { RemoveAgrees(y.state, caller, domain); }
    }
  }

  /** Whatever is in flight was read by an admin. */
  lemma {:induction false} PendingIsAdmins(ops: seq<Op>, n: nat, request: nat) returns (j: nat)
    requires n <= |ops| && request in After(ops, n).pending
    ensures j < n && ops[j].BeginAdd? && ops[j].request == request && ops[j].caller == Admin
    ensures After(ops, n).pending[request] == NewDomains(After(ops, j).state.domains, ops[j].requested)
  {
    var before, op := After(ops, n - 1), ops[n - 1];
    if op.BeginAdd? { ReadExactly(before.state, op.caller, op.requested); }
    if op.BeginAdd? && op.request == request && Read(before.state, op.caller, op.requested).Ok? {
      j := n - 1;
    } else {
      j := PendingIsAdmins(ops, n - 1, request);
    }
  }

  /** So only admins change the allowlist: by a removal, or by inserting what they read. */
  lemma OnlyAdminsChange(ops: seq<Op>, n: nat) returns (j: nat)
    requires n < |ops| && After(ops, n + 1).state != After(ops, n).state
    ensures j <= n && (ops[j].BeginAdd? || ops[j].RemoveOne?) && ops[j].caller == Admin
    ensures ops[n].RemoveOne? ==> j == n
    ensures ops[n].CommitAdd? ==> ops[j].BeginAdd? && ops[j].request == ops[n].request
  {
    match ops[n]
    case BeginAdd(_, _, _) =>
      assert false;
      j := n;
    case CommitAdd(request) =>
      j := PendingIsAdmins(ops, n, request);
    case RemoveOne(caller, domain) =>
      RemoveExactly(After(ops, n).state, caller, domain);
      j := n;
  }

  /** With nothing in between, the insert of a bulk add succeeds exactly when the requested list names no new domain
      twice. */
  lemma UndisturbedAdd(s: State, caller: Caller, requested: seq<string>)
    requires Read(s, caller, requested).Ok?
    ensures Insert(s, Read(s, caller, requested).value).Ok? <==> NoRepeats(NewDomains(s.domains, requested))
    ensures NoRepeats(requested) ==> NoRepeats(NewDomains(s.domains, requested))
  {
  }
}
