/** Laws of the command totals: accounting, the additive homomorphism behind the live metrics, clean keys. */
module CommandLaws {
  import opened Text
  import opened CommandTable
  import opened Commands
  import opened Sums

  // ---------------------------------------------------------------- adding reports

  function Plus(t: Tally, u: Tally): Tally {
    map k | k in t.Keys + u.Keys :: Get(t, k) + Get(u, k)
  }

  function PlusNode(m: Node, n: Node): Node {
    Node(m.total + n.total, Plus(m.actions, n.actions))
  }

  function PlusTree(t: Tree, u: Tree): Tree {
    map k | k in t.Keys + u.Keys :: PlusNode(At(t, k), At(u, k))
  }

  /** Pointwise sum of all four totals. */
  function PlusReport(r: Report, s: Report): Report {
    Report(Plus(r.canonical, s.canonical), PlusTree(r.hierarchy, s.hierarchy), Plus(r.typos, s.typos),
           Plus(r.aliases, s.aliases))
  }

  lemma PlusAssociative(t: Tally, u: Tally, v: Tally)
    ensures Plus(Plus(t, u), v) == Plus(t, Plus(u, v))
  {
  }

  lemma PlusCommutative(t: Tally, u: Tally)
    ensures Plus(t, u) == Plus(u, t)
  {
  }

  lemma PlusEmpty(t: Tally)
    ensures Plus(t, map[]) == t
  {
  }

  lemma NodeAssociative(a: Node, b: Node, c: Node)
    ensures PlusNode(PlusNode(a, b), c) == PlusNode(a, PlusNode(b, c))
  {
    PlusAssociative(a.actions, b.actions, c.actions);
  }

  lemma AtLeft(t: Tree, u: Tree, v: Tree, k: string)
    ensures At(PlusTree(PlusTree(t, u), v), k) == PlusNode(PlusNode(At(t, k), At(u, k)), At(v, k))
  {
    AtPlus(PlusTree(t, u), v, k);
    AtPlus(t, u, k);
  }

  lemma AtRight(t: Tree, u: Tree, v: Tree, k: string)
    ensures At(PlusTree(t, PlusTree(u, v)), k) == PlusNode(At(t, k), PlusNode(At(u, k), At(v, k)))
  {
    AtPlus(t, PlusTree(u, v), k);
    AtPlus(u, v, k);
  }

  lemma PlusTreeAt(t: Tree, u: Tree, v: Tree, k: string)
    ensures At(PlusTree(PlusTree(t, u), v), k) == At(PlusTree(t, PlusTree(u, v)), k)
  {
    AtLeft(t, u, v, k);
    AtRight(t, u, v, k);
    NodeAssociative(At(t, k), At(u, k), At(v, k));
  }

  lemma SameTree(a: Tree, b: Tree)
    requires a.Keys == b.Keys && forall k :: At(a, k) == At(b, k)
    ensures a == b
  {
    forall k | k in a ensures a[k] == b[k] {
      assert At(a, k) == At(b, k);
    }
  }

  lemma LeftKeys(t: Tree, u: Tree, v: Tree)
    ensures PlusTree(PlusTree(t, u), v).Keys == t.Keys + u.Keys + v.Keys
  {
  }

  lemma RightKeys(t: Tree, u: Tree, v: Tree)
    ensures PlusTree(t, PlusTree(u, v)).Keys == t.Keys + u.Keys + v.Keys
  {
  }

  lemma AllTreeAts(t: Tree, u: Tree, v: Tree)
    ensures forall k :: At(PlusTree(PlusTree(t, u), v), k) == At(PlusTree(t, PlusTree(u, v)), k)
  {
    forall k ensures At(PlusTree(PlusTree(t, u), v), k) == At(PlusTree(t, PlusTree(u, v)), k) {
      PlusTreeAt(t, u, v, k);
    }
  }

  lemma PlusTreeAssociative(t: Tree, u: Tree, v: Tree)
    ensures PlusTree(PlusTree(t, u), v) == PlusTree(t, PlusTree(u, v))
  {
    LeftKeys(t, u, v);
    RightKeys(t, u, v);
    AllTreeAts(t, u, v);
    SameTree(PlusTree(PlusTree(t, u), v), PlusTree(t, PlusTree(u, v)));
  }

  lemma AtPlus(t: Tree, u: Tree, k: string)
    ensures At(PlusTree(t, u), k) == PlusNode(At(t, k), At(u, k))
  {
    PlusEmpty(map[]);
  }

  lemma PlusTreeCommutative(t: Tree, u: Tree)
    ensures PlusTree(t, u) == PlusTree(u, t)
  {
    forall k | k in PlusTree(t, u) ensures PlusTree(t, u)[k] == PlusTree(u, t)[k] {
      PlusCommutative(At(t, k).actions, At(u, k).actions);
    }
  }

  lemma PlusTreeEmpty(t: Tree)
    ensures PlusTree(t, map[]) == t
  {
    forall k | k in t ensures PlusTree(t, map[])[k] == t[k] {
      PlusEmpty(t[k].actions);
    }
  }

  lemma ReportAssociative(r: Report, s: Report, t: Report)
    ensures PlusReport(PlusReport(r, s), t) == PlusReport(r, PlusReport(s, t))
  {
    PlusAssociative(r.canonical, s.canonical, t.canonical);
    PlusTreeAssociative(r.hierarchy, s.hierarchy, t.hierarchy);
    PlusAssociative(r.typos, s.typos, t.typos);
    PlusAssociative(r.aliases, s.aliases, t.aliases);
  }

  lemma ReportCommutative(r: Report, s: Report)
    ensures PlusReport(r, s) == PlusReport(s, r)
  {
    PlusCommutative(r.canonical, s.canonical);
    PlusTreeCommutative(r.hierarchy, s.hierarchy);
    PlusCommutative(r.typos, s.typos);
    PlusCommutative(r.aliases, s.aliases);
  }

  lemma ReportEmpty(r: Report)
    ensures PlusReport(r, EMPTY) == r
  {
    PlusEmpty(r.canonical);
    PlusTreeEmpty(r.hierarchy);
    PlusEmpty(r.typos);
    PlusEmpty(r.aliases);
  }

  lemma ReportsFormMonoid()
    ensures Monoid(PlusReport, EMPTY)
  {
    forall r, s, t ensures PlusReport(PlusReport(r, s), t) == PlusReport(r, PlusReport(s, t)) {
      ReportAssociative(r, s, t);
    }
    forall r, s ensures PlusReport(r, s) == PlusReport(s, r) {
      ReportCommutative(r, s);
    }
    forall r ensures PlusReport(r, EMPTY) == r {
      ReportEmpty(r);
    }
  }

  // ---------------------------------------------------------------- one entry

  function UnitOf(kind: Class, name: string, c: int): Report {
    if c <= 0 then EMPTY else Tick(EMPTY, kind, name, c)
  }

  /** What a single entry contributes. */
  function Unit(raw: string, c: int): Report {
    UnitOf(ClassifyCommand(raw), Lower(Sanitize(raw)), c)
  }

  lemma BumpIsPlus(t: Tally, k: string, c: int)
    ensures Bump(t, k, c) == Plus(t, Bump(map[], k, c))
  {
  }

  lemma GrowIsPlus(t: Tree, d: string, a: string, c: int)
    ensures var node := At(t, d);
            t[d := Node(node.total + c, Bump(node.actions, a, c))]
            == PlusTree(t, map[d := Node(c, Bump(map[], a, c))])
  {
    var node, one := At(t, d), map[d := Node(c, Bump(map[], a, c))];
    BumpIsPlus(node.actions, a, c);
    forall k | k in t && k != d ensures PlusTree(t, one)[k] == t[k] {
      PlusEmpty(t[k].actions);
    }
  }

  lemma {:induction false} RecordIsPlus(r: Report, raw: string, c: int)
    ensures Record(r, raw, c) == PlusReport(r, Unit(raw, c))
  {
    if c <= 0 {
      ReportEmpty(r);
    } else {
      TickIsPlus(r, ClassifyCommand(raw), Lower(Sanitize(raw)), c);
    }
  }

  lemma TickIsPlus(r: Report, kind: Class, name: string, c: int)
    ensures Tick(r, kind, name, c) == PlusReport(r, Tick(EMPTY, kind, name, c))
  {
    match kind
    case Discarded => ReportEmpty(r);
    case Typo(t) => TypoIsPlus(r, t, c);
    case Command(domain, action) => CommandIsPlus(r, domain, action, name, c);
  }

  lemma TypoIsPlus(r: Report, name: string, c: int)
    ensures r.(typos := Bump(r.typos, name, c)) == PlusReport(r, TypoUnit(name, c))
  {
    PlusEmpty(r.canonical);
    PlusEmpty(r.aliases);
    PlusTreeEmpty(r.hierarchy);
    BumpIsPlus(r.typos, name, c);
  }

  lemma CommandIsPlus(r: Report, domain: string, action: string, name: string, c: int)
    ensures var node := At(r.hierarchy, domain);
            Report(Bump(r.canonical, domain, c),
                   r.hierarchy[domain := Node(node.total + c, Bump(node.actions, action, c))],
                   r.typos, if IsAlias(name, domain, action) then Bump(r.aliases, name, c) else r.aliases)
            == PlusReport(r, CommandUnit(domain, action, name, c))
  {
    BumpIsPlus(r.canonical, domain, c);
    GrowIsPlus(r.hierarchy, domain, action, c);
    PlusEmpty(r.typos);
    PlusEmpty(r.aliases);
    BumpIsPlus(r.aliases, name, c);
  }

  lemma BumpTwice(k: string, c: int, d: int)
    ensures Plus(Bump(map[], k, c), Bump(map[], k, d)) == Bump(map[], k, c + d)
  {
  }

  lemma GrowTwice(d: string, a: string, b: int, c: int)
    ensures PlusTree(map[d := Node(b, Bump(map[], a, b))], map[d := Node(c, Bump(map[], a, c))])
            == map[d := Node(b + c, Bump(map[], a, b + c))]
  {
    BumpTwice(a, b, c);
  }

  function TypoUnit(name: string, c: int): Report {
    Report(map[], map[], Bump(map[], name, c), map[])
  }

  function CommandUnit(domain: string, action: string, name: string, c: int): Report {
    Report(Bump(map[], domain, c), map[domain := Node(c, Bump(map[], action, c))], map[],
           if IsAlias(name, domain, action) then Bump(map[], name, c) else map[])
  }

  lemma TypoTwice(name: string, b: int, c: int)
    ensures PlusReport(TypoUnit(name, b), TypoUnit(name, c)) == TypoUnit(name, b + c)
  {
  }

  lemma CommandTwice(domain: string, action: string, name: string, b: int, c: int)
    ensures PlusReport(CommandUnit(domain, action, name, b), CommandUnit(domain, action, name, c))
            == CommandUnit(domain, action, name, b + c)
  {
    PlusEmpty(map[]);
    BumpTwice(domain, b, c);
    GrowTwice(domain, action, b, c);
    BumpTwice(name, b, c);
  }

  lemma UnitOfAdds(kind: Class, name: string, b: int, c: int)
    requires b >= 0 && c >= 0
    ensures PlusReport(UnitOf(kind, name, b), UnitOf(kind, name, c)) == UnitOf(kind, name, b + c)
  {
    if b == 0 || c == 0 {
      ReportEmpty(UnitOf(kind, name, b + c));
      ReportCommutative(EMPTY, UnitOf(kind, name, b + c));
    } else {
      TickTwice(kind, name, b, c);
    }
  }

  /** Counts of one name add up when neither is negative, when neither is positive, and when the name is discarded. */
  lemma UnitAdds(raw: string, b: int, c: int)
    requires (b >= 0 && c >= 0) || (b <= 0 && c <= 0) || ClassifyCommand(raw).Discarded?
    ensures PlusReport(Unit(raw, b), Unit(raw, c)) == Unit(raw, b + c)
  {
    if b >= 0 && c >= 0 { UnitOfAdds(ClassifyCommand(raw), Lower(Sanitize(raw)), b, c); } else { ReportEmpty(EMPTY); }
  }

  lemma TickTwice(kind: Class, name: string, b: int, c: int)
    ensures PlusReport(Tick(EMPTY, kind, name, b), Tick(EMPTY, kind, name, c)) == Tick(EMPTY, kind, name, b + c)
  {
    match kind
    case Discarded => ReportEmpty(EMPTY);
    case Typo(t) => TypoTwice(t, b, c);
    case Command(domain, action) => CommandTwice(domain, action, name, b, c);
  }

  // ---------------------------------------------------------------- the homomorphism

  lemma {:induction false} ProcessIsSum(counts: Counts)
    ensures Process(counts) == Sum(PlusReport, EMPTY, Unit, counts)
  {
    if counts != [] {
      var before, last := counts[..|counts| - 1], counts[|counts| - 1];
      ProcessIsSum(before);
      RecordIsPlus(Process(before), last.0, last.1);
    }
  }

  /** The reports of the snapshots, added up. */
  function SumReports(snapshots: seq<Counts>): Report {
    if snapshots == [] then EMPTY
    else PlusReport(SumReports(snapshots[..|snapshots| - 1]), Process(snapshots[|snapshots| - 1]))
  }

  lemma {:induction false} SumReportsIsSumAll(snapshots: seq<Counts>)
    ensures SumReports(snapshots) == SumAll(PlusReport, EMPTY, Unit, snapshots)
  {
    if snapshots != [] {
      SumReportsIsSumAll(snapshots[..|snapshots| - 1]);
      ProcessIsSum(snapshots[|snapshots| - 1]);
    }
  }

  /** Summing the raw counters of the snapshots and classifying once gives what classifying each and adding gives, in
      whatever order the snapshots come, if all counts are of a kind that adds up. */
  lemma {:induction false} MergedIsSummed(ok: Admits, snapshots: seq<Counts>, shuffled: seq<Counts>)
    requires Additive(PlusReport, Unit, ok) && multiset(snapshots) == multiset(shuffled)
    requires forall i :: 0 <= i < |snapshots| ==> All(ok, snapshots[i])
    ensures Process(MergeAll(snapshots)) == SumReports(shuffled)
  {
    ReportsFormMonoid();
    MergeAllAdds(PlusReport, EMPTY, Unit, ok, snapshots);
    ProcessIsSum(MergeAll(snapshots));
    ReportsInAnyOrder(snapshots, shuffled);
    SumReportsIsSumAll(snapshots);
  }

  lemma ReportsInAnyOrder(snapshots: seq<Counts>, shuffled: seq<Counts>)
    requires multiset(snapshots) == multiset(shuffled)
    ensures SumReports(snapshots) == SumReports(shuffled)
  {
    ReportsFormMonoid();
    OrderIrrelevant(PlusReport, EMPTY, Unit, snapshots, shuffled);
    SumReportsIsSumAll(snapshots);
    SumReportsIsSumAll(shuffled);
  }

  // ---------------------------------------------------------------- accounting

  ghost function SumValues(t: Tally): int
    decreases |t|
  {
    if t == map[] then 0 else var k :| k in t; t[k] + SumValues(t - {k})
  }

  lemma {:induction false} SumWithoutKey(t: Tally, k: string)
    requires k in t
    ensures SumValues(t) == t[k] + SumValues(t - {k})
    decreases |t|
  {
    var j :| j in t && SumValues(t) == t[j] + SumValues(t - {j});
    if j != k {
      SumWithoutKey(t - {j}, k);
      SumWithoutKey(t - {k}, j);
      assert t - {j} - {k} == t - {k} - {j};
    }
  }

  lemma BumpSum(t: Tally, k: string, c: int)
    ensures SumValues(Bump(t, k, c)) == SumValues(t) + c
  {
    SumWithoutKey(Bump(t, k, c), k);
    assert Bump(t, k, c) - {k} == t - {k};
    if k in t {
      SumWithoutKey(t, k);
    } else {
      assert t - {k} == t;
    }
  }

  /** The positive counts of the names that are not discarded. */
  function Kept(counts: Counts): int {
    if counts == [] then 0
    else
      var (raw, c) := counts[|counts| - 1];
      Kept(counts[..|counts| - 1]) + if c > 0 && !ClassifyCommand(raw).Discarded? then c else 0
  }

  /** Nothing is lost or counted twice: known and mistyped names add up to `kept`, every domain's node carries its
      canonical total, split without rest among its actions, and aliases are part of the known names. */
  ghost predicate Balanced(r: Report, kept: int) {
    && SumValues(r.canonical) + SumValues(r.typos) == kept
    && r.hierarchy.Keys == r.canonical.Keys
    && (forall d :: d in r.hierarchy ==> NodeBalanced(r.hierarchy[d], r.canonical[d]))
    && SumValues(r.aliases) <= SumValues(r.canonical)
  }

  ghost predicate NodeBalanced(node: Node, total: int) {
    node.total == total == SumValues(node.actions)
  }

  lemma TickBalanced(r: Report, kind: Class, name: string, c: int, kept: int)
    requires Balanced(r, kept) && c > 0
    ensures Balanced(Tick(r, kind, name, c), kept + if kind.Discarded? then 0 else c)
  {
    match kind
    case Discarded =>
    case Typo(t) => BumpSum(r.typos, t, c);
    case Command(domain, action) =>
      BumpSum(r.canonical, domain, c);
      BumpSum(r.aliases, name, c);
      BumpSum(At(r.hierarchy, domain).actions, action, c);
  }

  /** The accounting holds for every dictionary of counts. */
  lemma {:induction false} ProcessBalanced(counts: Counts)
    ensures Balanced(Process(counts), Kept(counts))
  {
    if counts != [] {
      var before, last := counts[..|counts| - 1], counts[|counts| - 1];
      ProcessBalanced(before);
      if last.1 > 0 {
        TickBalanced(Process(before), ClassifyCommand(last.0), Lower(Sanitize(last.0)), last.1, Kept(before));
      }
    }
  }

  // ---------------------------------------------------------------- each figure by itself

  /** One figure of the report. */
  datatype Figure = OfDomain(d: string) | OfNode(d: string) | OfAction(d: string, a: string) | OfTypo(t: string)
                  | OfAlias(n: string)

  function Read(r: Report, f: Figure): int {
    match f
    case OfDomain(d) => Get(r.canonical, d)
    case OfNode(d) => At(r.hierarchy, d).total
    case OfAction(d, a) => Get(At(r.hierarchy, d).actions, a)
    case OfTypo(t) => Get(r.typos, t)
    case OfAlias(n) => Get(r.aliases, n)
  }

  /** Whether a name of this class goes into the figure. */
  predicate Concerns(f: Figure, kind: Class, name: string) {
    match f
    case OfDomain(d) => kind.Command? && kind.domain == d
    case OfNode(d) => kind.Command? && kind.domain == d
    case OfAction(d, a) => kind == Command(d, a)
    case OfTypo(t) => kind == Typo(t)
    case OfAlias(n) => name == n && kind.Command? && IsAlias(n, kind.domain, kind.action)
  }

  function Counted(counts: Counts, f: Figure): int {
    if counts == [] then 0
    else
      var (raw, c) := counts[|counts| - 1];
      Counted(counts[..|counts| - 1], f)
      + if c > 0 && Concerns(f, ClassifyCommand(raw), Lower(Sanitize(raw))) then c else 0
  }

  lemma TickReads(r: Report, kind: Class, name: string, c: int, f: Figure)
    ensures Read(Tick(r, kind, name, c), f) == Read(r, f) + if Concerns(f, kind, name) then c else 0
  {
  }

  /** Every figure is the sum of the positive counts of the names it concerns, and of no others. */
  lemma {:induction false} FiguresAreCounts(counts: Counts, f: Figure)
    ensures Read(Process(counts), f) == Counted(counts, f)
  {
    if counts != [] {
      var before, last := counts[..|counts| - 1], counts[|counts| - 1];
      FiguresAreCounts(before, f);
      if last.1 > 0 {
        TickReads(Process(before), ClassifyCommand(last.0), Lower(Sanitize(last.0)), last.1, f);
      }
    }
  }

  // ---------------------------------------------------------------- clean keys

  /** Letters, hyphens and underscores, too short for `appdata` or without its `p` or `d`: no marker fits in. */
  predicate Plain(w: string) {
    && (forall i :: 0 <= i < |w| ==> 'a' <= w[i] <= 'z' || w[i] == '-' || w[i] == '_')
    && (|w| < 7 || 'd' !in w || 'p' !in w)
  }

  lemma PlainHasNo(w: string, marker: string, i: nat)
    requires Plain(w) && Contains(w, marker) && i < |marker|
    ensures 'a' <= marker[i] <= 'z' || marker[i] == '-' || marker[i] == '_'
    ensures |marker| <= |w| && marker[i] in w
  {
  }

  lemma PlainIsLower(w: string)
    requires Plain(w)
    ensures Lower(w) == w
  {
  }

  lemma PlainUnmarked(w: string)
    requires Plain(w)
    ensures !HasMarker(w)
  {
    PlainIsLower(w);
    if i :| 0 <= i < |MARKERS| && Contains(Lower(w), MARKERS[i]) {
      match i {
        case 0 => PlainHasNo(w, "/", 0);
        case 1 => PlainHasNo(w, "\\", 0);
        case 2 =>
          PlainHasNo(w, "appdata", 1);
          PlainHasNo(w, "appdata", 3);
        case 3 => PlainHasNo(w, ".exe", 0);
        case 4 => PlainHasNo(w, ".py", 0);
        case 5 => PlainHasNo(w, ".sh", 0);
        case 6 => PlainHasNo(w, ".bat", 0);
        case 7 => PlainHasNo(w, "program files", 7);
        case 8 => PlainHasNo(w, "home/", 4);
        case _ => PlainHasNo(w, "users/", 5);
      }
    }
  }

  lemma PrefixesPlainLow(i: nat)
    requires i < 9
    ensures Plain(KNOWN_PREFIXES[i])
  {
  }

  lemma PrefixesPlainMiddle(i: nat)
    requires 9 <= i < 18
    ensures Plain(KNOWN_PREFIXES[i])
  {
  }

  lemma PrefixesPlainHigh(i: nat)
    requires 18 <= i < |KNOWN_PREFIXES|
    ensures Plain(KNOWN_PREFIXES[i])
  {
  }

  lemma PrefixesPlain(i: nat)
    requires i < |KNOWN_PREFIXES|
    ensures Plain(KNOWN_PREFIXES[i])
  {
    if i < 9 {
      PrefixesPlainLow(i);
    } else if i < 18 {
      PrefixesPlainMiddle(i);
    } else {
      PrefixesPlainHigh(i);
    }
  }

  lemma {:induction false} FirstPrefixUnmarked(prefixes: seq<string>, s: string)
    requires forall i :: 0 <= i < |prefixes| ==> Plain(prefixes[i])
    ensures !HasMarker(FirstPrefix(prefixes, s))
  {
    if prefixes == [] {
      NoMarkerInEmpty();
    } else if prefixes[0] <= s {
      PlainUnmarked(prefixes[0]);
    } else {
      FirstPrefixUnmarked(prefixes[1..], s);
    }
  }

  lemma LowerTwice(s: string)
    ensures Lower(Lower(s)) == Lower(s)
  {
  }

  /** No path or binary survives cleaning. */
  lemma SanitizeUnmarked(raw: string)
    ensures !HasMarker(Lower(Sanitize(raw)))
  {
    var clean := Strip(raw);
    if HasMarker(clean) {
      forall i | 0 <= i < |KNOWN_PREFIXES| ensures Plain(KNOWN_PREFIXES[i]) {
        PrefixesPlain(i);
      }
      FirstPrefixUnmarked(KNOWN_PREFIXES, Lower(clean));
    }
    LowerTwice(Sanitize(raw));
  }

  lemma {:induction false} FindDomainPlain(domains: seq<Domain>, name: string)
    requires forall i :: 0 <= i < |domains| ==> Plain(domains[i].name)
    ensures var r := FindDomain(domains, name); r.Some? ==> Plain(r.value.0)
  {
    if domains != [] {
      FindDomainPlain(domains[1..], name);
    }
  }

  lemma LongNamesPlain()
    ensures Plain("secrets") && Plain("projects") && Plain("workspaces") && Plain("environment")
  {
  }

  lemma ShortNamesPlain()
    ensures Plain("agents") && Plain("logs") && Plain("proxy") && Plain("call") && Plain("env") && Plain("exec")
  {
  }

  lemma OtherNamesPlain()
    ensures Plain("mcp") && Plain("server") && Plain("status") && Plain("init") && Plain("login") && Plain("logout")
    ensures Plain("docs")
  {
  }

  lemma DomainsPlain(i: nat)
    requires i < |DOMAINS|
    ensures Plain(DOMAINS[i].name)
  {
    LongNamesPlain();
    ShortNamesPlain();
    OtherNamesPlain();
  }

  /** Every key of the four totals is free of path and binary markers. */
  ghost predicate Clean(r: Report) {
    && (forall k :: k in r.canonical ==> !HasMarker(k))
    && (forall k :: k in r.hierarchy ==> !HasMarker(k))
    && (forall k :: k in r.typos ==> !HasMarker(k))
    && (forall k :: k in r.aliases ==> !HasMarker(k))
  }

  lemma ClassifyUnmarked(raw: string)
    ensures match ClassifyCommand(raw)
            case Discarded => true
            case Typo(t) => !HasMarker(t)
            case Command(domain, _) => !HasMarker(domain)
  {
    SanitizeUnmarked(raw);
    forall i | 0 <= i < |DOMAINS| ensures Plain(DOMAINS[i].name) {
      DomainsPlain(i);
    }
    FindDomainPlain(DOMAINS, Lower(Sanitize(raw)));
    if ClassifyCommand(raw).Command? {
      PlainUnmarked(ClassifyCommand(raw).domain);
    }
  }

  lemma TickClean(r: Report, kind: Class, name: string, c: int)
    requires Clean(r) && !HasMarker(name)
    requires kind.Typo? ==> !HasMarker(kind.typo)
    requires kind.Command? ==> !HasMarker(kind.domain)
    ensures Clean(Tick(r, kind, name, c))
  {
  }

  /** Whatever names the clients send, no path or binary shows in the totals. */
  lemma {:induction false} ProcessClean(counts: Counts)
    ensures Clean(Process(counts))
  {
    if counts != [] {
      var before, last := counts[..|counts| - 1], counts[|counts| - 1];
      ProcessClean(before);
      SanitizeUnmarked(last.0);
      ClassifyUnmarked(last.0);
      TickClean(Process(before), ClassifyCommand(last.0), Lower(Sanitize(last.0)), last.1);
    }
  }
}
