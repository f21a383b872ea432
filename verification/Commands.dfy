/** Telemetry command names: cleaning, classification, and the four totals kept of them. */
module Commands {
  import opened Text
  import opened CommandTable
  import opened Sums

  // ---------------------------------------------------------------- one name

  /** The path-and-binary pattern, case-insensitive. */
  predicate HasMarker(s: string) {
    exists i :: 0 <= i < |MARKERS| && Contains(Lower(s), MARKERS[i])
  }

  function FirstPrefix(prefixes: seq<string>, s: string): string {
    if prefixes == [] then ""
    else if prefixes[0] <= s then prefixes[0]
    else FirstPrefix(prefixes[1..], s)
  }

  function Sanitize(raw: string): string {
    var clean := Strip(raw);
    if HasMarker(clean) then FirstPrefix(KNOWN_PREFIXES, Lower(clean)) else clean
  }

  method RecoverPrefix(prefixes: seq<string>, lower: string) returns (name: string)
    ensures name == FirstPrefix(prefixes, lower)
  {
    for i := 0 to |prefixes|
      invariant FirstPrefix(prefixes, lower) == FirstPrefix(prefixes[i..], lower)
    {
      if prefixes[i] <= lower {
        return prefixes[i];
      }
      assert prefixes[i..][1..] == prefixes[i + 1..];
    }
    return "";
  }

  method SanitizeRawCommandName(raw: string) returns (name: string)
    ensures name == Sanitize(raw)
  {
    if raw == "" {
      NoMarkerInEmpty();
      return "";
    }
    var clean := Strip(raw);
    if HasMarker(clean) {
      name := RecoverPrefix(KNOWN_PREFIXES, Lower(clean));
    } else {
      name := clean;
    }
  }

  lemma NoMarkerInEmpty()
    ensures !HasMarker("")
  {
  }

  function FindVerb(verbs: seq<Verb>, name: string): Option<string> {
    if verbs == [] then None
    else if name in verbs[0].names then Some(verbs[0].action)
    else FindVerb(verbs[1..], name)
  }

  function FindDomain(domains: seq<Domain>, name: string): Option<(string, string)> {
    if domains == [] then None
    else
      var verb := FindVerb(domains[0].verbs, name);
      if verb.Some? then Some((domains[0].name, verb.value)) else FindDomain(domains[1..], name)
  }

  datatype Class = Discarded | Command(domain: string, action: string) | Typo(typo: string)

  function ClassifyCommand(raw: string): Class {
    var name := Lower(Sanitize(raw));
    if name == "" || name in IGNORED then Discarded
    else
      var known := FindDomain(DOMAINS, name);
      if known.Some? then Command(known.value.0, known.value.1) else Typo(name)
  }

  predicate IsAlias(name: string, domain: string, action: string) {
    name != domain && (action != "general" || '-' in name || name in GENERIC_VERBS)
  }

  // ---------------------------------------------------------------- the four totals

  type Tally = map<string, int>

  function Get(t: Tally, k: string): int {
    if k in t then t[k] else 0
  }

  /** `t[k] = t.get(k, 0) + c`. */
  function Bump(t: Tally, k: string, c: int): Tally {
    t[k := Get(t, k) + c]
  }

  datatype Node = Node(total: int, actions: Tally)

  type Tree = map<string, Node>

  function At(t: Tree, k: string): Node {
    if k in t then t[k] else Node(0, map[])
  }

  datatype Report = Report(canonical: Tally, hierarchy: Tree, typos: Tally, aliases: Tally)

  const EMPTY := Report(map[], map[], map[], map[])

  /** One positive count of a classified, cleaned name. */
  function Tick(r: Report, kind: Class, name: string, c: int): Report {
    match kind
    case Discarded => r
    case Typo(t) => r.(typos := Bump(r.typos, t, c))
    case Command(domain, action) =>
      var node := At(r.hierarchy, domain);
      Report(Bump(r.canonical, domain, c),
             r.hierarchy[domain := Node(node.total + c, Bump(node.actions, action, c))],
             r.typos,
             if IsAlias(name, domain, action) then Bump(r.aliases, name, c) else r.aliases)
  }

  function Record(r: Report, raw: string, c: int): Report {
    if c <= 0 then r else Tick(r, ClassifyCommand(raw), Lower(Sanitize(raw)), c)
  }

  function Process(counts: Counts): Report {
    if counts == [] then EMPTY
    else
      var last := counts[|counts| - 1];
      Record(Process(counts[..|counts| - 1]), last.0, last.1)
  }

  lemma ProcessNext(counts: Counts, i: nat)
    requires i < |counts|
    ensures Process(counts[..i + 1]) == Record(Process(counts[..i]), counts[i].0, counts[i].1)
  {
    assert counts[..i + 1][..i] == counts[..i];
  }

  method AddCommand(canonical: Tally, hierarchy: Tree, typos: Tally, aliases: Tally, kind: Class, name: string,
                    count: int)
    returns (canonical': Tally, hierarchy': Tree, typos': Tally, aliases': Tally)
    ensures Report(canonical', hierarchy', typos', aliases')
            == Tick(Report(canonical, hierarchy, typos, aliases), kind, name, count)
  {
    canonical', hierarchy', typos', aliases' := canonical, hierarchy, typos, aliases;
    match kind
    case Discarded =>
    case Typo(t) =>
      typos' := Bump(typos, t, count);
    case Command(domain, action) =>
      canonical' := Bump(canonical, domain, count);
      if domain !in hierarchy {
        hierarchy' := hierarchy[domain := Node(0, map[])];
      }
      var node := hierarchy'[domain];
      hierarchy' := hierarchy'[domain := Node(node.total + count, Bump(node.actions, action, count))];
      if IsAlias(name, domain, action) {
        aliases' := Bump(aliases, name, count);
      }
  }

  method ProcessCommandExecutions(counts: Counts)
    returns (canonical: Tally, hierarchy: Tree, typos: Tally, aliases: Tally)
    ensures Report(canonical, hierarchy, typos, aliases) == Process(counts)
  {
    canonical, hierarchy, typos, aliases := map[], map[], map[], map[];
    for i := 0 to |counts|
      invariant Report(canonical, hierarchy, typos, aliases) == Process(counts[..i])
    {
      ProcessNext(counts, i);
      var (raw, count) := counts[i];
      if count > 0 {
        var name := SanitizeRawCommandName(raw);
        canonical, hierarchy, typos, aliases :=
          AddCommand(canonical, hierarchy, typos, aliases, ClassifyCommand(raw), Lower(name), count);
      }
    }
    assert counts[..|counts|] == counts;
  }

  // ---------------------------------------------------------------- live metrics: sum the raw counters first

  method LiveUsage(snapshots: seq<Counts>)
    returns (canonical: Tally, hierarchy: Tree, typos: Tally, aliases: Tally)
    ensures Report(canonical, hierarchy, typos, aliases) == Process(MergeAll(snapshots))
  {
    var counter: Counts := [];
    for i := 0 to |snapshots|
      invariant counter == MergeAll(snapshots[..i])
    {
      ghost var start := counter;
      for j := 0 to |snapshots[i]|
        invariant counter == Merge(start, snapshots[i][..j])
      {
        assert snapshots[i][..j + 1][..j] == snapshots[i][..j];
        counter := AddCount(counter, snapshots[i][j].0, snapshots[i][j].1);
      }
      assert snapshots[i][..|snapshots[i]|] == snapshots[i];
      assert snapshots[..i + 1][..i] == snapshots[..i];
    }
    assert snapshots[..|snapshots|] == snapshots;
    canonical, hierarchy, typos, aliases := ProcessCommandExecutions(counter);
  }
}
