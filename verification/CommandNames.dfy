/** What the classification of a command name is, read off the vocabulary, and the totals stated over that. */
module CommandNames {
  import opened Text
  import opened CommandTable
  import opened CommandIndex
  import opened Commands
  import opened CommandLaws
  import opened Sums

  // ---------------------------------------------------------------- cleaning

  /** The first known prefix of a text, in the order of the table. */
  predicate LeadingPrefix(s: string, i: nat) {
    && i < |KNOWN_PREFIXES| && KNOWN_PREFIXES[i] <= s
    && forall j :: 0 <= j < i ==> !(KNOWN_PREFIXES[j] <= s)
  }

  ghost predicate NoPrefix(s: string) {
    forall i :: 0 <= i < |KNOWN_PREFIXES| ==> !(KNOWN_PREFIXES[i] <= s)
  }

  lemma {:induction false} FirstPrefixExactly(prefixes: seq<string>, s: string)
    ensures (exists i :: 0 <= i < |prefixes| && prefixes[i] <= s && FirstPrefix(prefixes, s) == prefixes[i]
                         && forall j :: 0 <= j < i ==> !(prefixes[j] <= s))
            || (FirstPrefix(prefixes, s) == "" && forall j :: 0 <= j < |prefixes| ==> !(prefixes[j] <= s))
  {
    if prefixes != [] && !(prefixes[0] <= s) {
      var rest := prefixes[1..];
      FirstPrefixExactly(rest, s);
      if i :| 0 <= i < |rest| && rest[i] <= s && FirstPrefix(rest, s) == rest[i]
              && forall j :: 0 <= j < i ==> !(rest[j] <= s)
      {
        forall j | 0 <= j < i + 1 ensures !(prefixes[j] <= s) {
          if j > 0 { assert rest[j - 1] == prefixes[j]; }
        }
        assert prefixes[i + 1] == rest[i];
      } else {
        forall j | 0 <= j < |prefixes| ensures !(prefixes[j] <= s) {
          if j > 0 { assert rest[j - 1] == prefixes[j]; }
        }
      }
    }
  }

  /** A marker of a path or a binary stands somewhere in the text, letter case aside. */
  ghost predicate Marked(s: string) {
    exists m: nat, i: nat :: m < |MARKERS| && OccursAt(Lower(s), MARKERS[m], i)
  }

  lemma MarkedExactly(s: string)
    ensures HasMarker(s) <==> Marked(s)
  {
    if m :| 0 <= m < |MARKERS| && Contains(Lower(s), MARKERS[m]) {
      ContainsExactly(Lower(s), MARKERS[m]);
      var i: nat :| OccursAt(Lower(s), MARKERS[m], i);
    }
    if m: nat, i: nat :| m < |MARKERS| && OccursAt(Lower(s), MARKERS[m], i) {
      ContainsExactly(Lower(s), MARKERS[m]);
      assert Contains(Lower(s), MARKERS[m]);
    }
  }

  /** A name without a marker is stripped and kept; from one with a marker the first known prefix is recovered, and
      without any nothing is left. */
  lemma SanitizeExactly(raw: string)
    ensures !Marked(Strip(raw)) ==> Sanitize(raw) == Strip(raw)
    ensures Marked(Strip(raw)) ==>
              || (exists i: nat :: LeadingPrefix(Lower(Strip(raw)), i) && Sanitize(raw) == KNOWN_PREFIXES[i])
              || (NoPrefix(Lower(Strip(raw))) && Sanitize(raw) == "")
  {
    var s := Lower(Strip(raw));
    MarkedExactly(Strip(raw));
    FirstPrefixExactly(KNOWN_PREFIXES, s);
    if Marked(Strip(raw)) {
      if i :| 0 <= i < |KNOWN_PREFIXES| && KNOWN_PREFIXES[i] <= s && FirstPrefix(KNOWN_PREFIXES, s) == KNOWN_PREFIXES[i]
              && forall j :: 0 <= j < i ==> !(KNOWN_PREFIXES[j] <= s)
      {
        assert LeadingPrefix(s, i);
      }
    }
  }

  // ---------------------------------------------------------------- classification

  /** The vocabulary lists the name under this action of this domain. */
  ghost predicate Means(name: string, domain: string, action: string) {
    exists i: nat, j: nat ::
      ListedAt(name, i, j) && DOMAINS[i].name == domain && DOMAINS[i].verbs[j].action == action
  }

  ghost predicate Listed(name: string) {
    exists i: nat, j: nat :: ListedAt(name, i, j)
  }

  /** Nothing left of the name, or a completion or help signal. */
  predicate Dropped(name: string) {
    || name == ""
    || name in ["__complete", "completion", "help", "--help", "-h", "--version", "-v", "version"]
  }

  /** A name means one thing. */
  lemma MeansOnce(name: string, d: string, a: string, d': string, a': string)
    requires Means(name, d, a) && Means(name, d', a')
    ensures d == d' && a == a'
  {
    var i: nat, j: nat :| ListedAt(name, i, j) && DOMAINS[i].name == d && DOMAINS[i].verbs[j].action == a;
    var k: nat, l: nat :| ListedAt(name, k, l) && DOMAINS[k].name == d' && DOMAINS[k].verbs[l].action == a';
    ListedOnce(name, i, j, k, l);
  }

  lemma {:induction false} FindVerbAt(verbs: seq<Verb>, name: string)
    ensures FindVerb(verbs, name).Some? ==>
              exists j :: 0 <= j < |verbs| && name in verbs[j].names && FindVerb(verbs, name) == Some(verbs[j].action)
    ensures FindVerb(verbs, name).None? ==> forall j :: 0 <= j < |verbs| ==> name !in verbs[j].names
  {
    if verbs != [] && name !in verbs[0].names {
      FindVerbAt(verbs[1..], name);
      if FindVerb(verbs, name).Some? {
        var j :| 0 <= j < |verbs[1..]| && name in verbs[1..][j].names
                 && FindVerb(verbs[1..], name) == Some(verbs[1..][j].action);
        assert verbs[j + 1] == verbs[1..][j];
      } else {
        forall j | 0 <= j < |verbs| ensures name !in verbs[j].names {
          if j > 0 { assert verbs[1..][j - 1] == verbs[j]; }
        }
      }
    }
  }

  /** The domain lists the name under this action. */
  predicate DomainLists(d: Domain, name: string, action: string) {
    exists j :: 0 <= j < |d.verbs| && name in d.verbs[j].names && d.verbs[j].action == action
  }

  lemma {:induction false} FindDomainAt(domains: seq<Domain>, name: string)
    ensures FindDomain(domains, name).Some? ==>
              exists i :: 0 <= i < |domains| && domains[i].name == FindDomain(domains, name).value.0
                          && DomainLists(domains[i], name, FindDomain(domains, name).value.1)
    ensures FindDomain(domains, name).None? ==>
              forall i, a :: 0 <= i < |domains| ==> !DomainLists(domains[i], name, a)
  {
    if domains != [] {
      FindVerbAt(domains[0].verbs, name);
      FindDomainAt(domains[1..], name);
      if FindVerb(domains[0].verbs, name).Some? {
        assert DomainLists(domains[0], name, FindDomain(domains, name).value.1);
      } else if FindDomain(domains, name).Some? {
        var i :| 0 <= i < |domains[1..]| && domains[1..][i].name == FindDomain(domains[1..], name).value.0
                 && DomainLists(domains[1..][i], name, FindDomain(domains[1..], name).value.1);
        assert domains[i + 1] == domains[1..][i];
      } else {
        forall i, a | 0 <= i < |domains| ensures !DomainLists(domains[i], name, a) {
          if i > 0 { assert domains[1..][i - 1] == domains[i]; }
        }
      }
    }
  }

  lemma FoundMeans(name: string)
    ensures var known := FindDomain(DOMAINS, name);
            if known.Some? then Means(name, known.value.0, known.value.1) else !Listed(name)
  {
    FindDomainAt(DOMAINS, name);
    var known := FindDomain(DOMAINS, name);
    if known.Some? {
      var i: nat :| i < |DOMAINS| && DOMAINS[i].name == known.value.0 && DomainLists(DOMAINS[i], name, known.value.1);
      var j: nat :| j < |DOMAINS[i].verbs| && name in DOMAINS[i].verbs[j].names
                    && DOMAINS[i].verbs[j].action == known.value.1;
      assert ListedAt(name, i, j);
    } else {
      forall i: nat, j: nat ensures !ListedAt(name, i, j) {
        if ListedAt(name, i, j) { assert DomainLists(DOMAINS[i], name, DOMAINS[i].verbs[j].action); }
      }
    }
  }

  lemma DroppedExactly(name: string)
    ensures Dropped(name) <==> name == "" || name in IGNORED
  {
  }

  lemma MeansListed(name: string, d: string, a: string)
    requires Means(name, d, a)
    ensures Listed(name)
  {
  }

  /** The class of a cleaned name is what the vocabulary says: the one domain and action that list it, a typo if none
      does, and nothing for what is empty or ignored. */
  lemma ClassifiedExactly(raw: string, d: string, a: string, t: string)
    ensures var name := Lower(Sanitize(raw));
            && (ClassifyCommand(raw) == Command(d, a) <==> !Dropped(name) && Means(name, d, a))
            && (ClassifyCommand(raw) == Typo(t) <==> !Dropped(name) && !Listed(name) && t == name)
            && (ClassifyCommand(raw) == Discarded <==> Dropped(name))
  {
    var name := Lower(Sanitize(raw));
    var known := FindDomain(DOMAINS, name);
    DroppedExactly(name);
    FoundMeans(name);
    if known.Some? {
      MeansListed(name, known.value.0, known.value.1);
      if Means(name, d, a) { MeansOnce(name, d, a, known.value.0, known.value.1); }
    } else if Means(name, d, a) {
      MeansListed(name, d, a);
    }
  }

  // ---------------------------------------------------------------- the figures

  /** An alias is a name, other than the domain's own, that means one of its actions, has a hyphen or is a generic
      verb. */
  predicate Alias(name: string, domain: string, action: string) {
    && name != domain
    && (|| action != "general"
        || '-' in name
        || name in ["list", "get", "set", "pull", "push", "diff", "use", "sync"])
  }

  /** The cleaned name goes into the figure. */
  ghost predicate GoesInto(f: Figure, name: string) {
    && !Dropped(name)
    && match f
       case OfDomain(d) => exists a :: Means(name, d, a)
       case OfNode(d) => exists a :: Means(name, d, a)
       case OfAction(d, a) => Means(name, d, a)
       case OfTypo(t) => t == name && !Listed(name)
       case OfAlias(n) => n == name && exists d, a :: Means(name, d, a) && Alias(name, d, a)
  }

  lemma AliasExactly(name: string, d: string, a: string)
    ensures IsAlias(name, d, a) <==> Alias(name, d, a)
  {
  }

  lemma ConcernsExactly(f: Figure, raw: string)
    ensures Concerns(f, ClassifyCommand(raw), Lower(Sanitize(raw))) <==> GoesInto(f, Lower(Sanitize(raw)))
  {
    var kind, name := ClassifyCommand(raw), Lower(Sanitize(raw));
    forall d, a ensures kind == Command(d, a) <==> !Dropped(name) && Means(name, d, a) {
      ClassifiedExactly(raw, d, a, name);
    }
    forall t ensures kind == Typo(t) <==> !Dropped(name) && !Listed(name) && t == name {
      ClassifiedExactly(raw, "", "", t);
    }
    if kind.Command? {
      assert kind == Command(kind.domain, kind.action);
      AliasExactly(name, kind.domain, kind.action);
    }
    if f.OfAlias? && GoesInto(f, name) {
      var d, a :| Means(name, d, a) && Alias(name, d, a);
      assert kind == Command(d, a);
    }
  }

  /** The positive counts of the names that go into a figure. */
  ghost function Owed(counts: Counts, f: Figure): int {
    if counts == [] then 0
    else
      var (raw, c) := counts[|counts| - 1];
      Owed(counts[..|counts| - 1], f) + if c > 0 && GoesInto(f, Lower(Sanitize(raw))) then c else 0
  }

  lemma {:induction false} OwedIsCounted(counts: Counts, f: Figure)
    ensures Counted(counts, f) == Owed(counts, f)
  {
    if counts != [] {
      OwedIsCounted(counts[..|counts| - 1], f);
      ConcernsExactly(f, counts[|counts| - 1].0);
    }
  }

  /** Every figure of the totals is the sum of the positive counts of the names that the vocabulary puts into it. */
  lemma FiguresByVocabulary(counts: Counts, f: Figure)
    ensures Read(Process(counts), f) == Owed(counts, f)
  {
    FiguresAreCounts(counts, f);
    OwedIsCounted(counts, f);
  }

  // ---------------------------------------------------------------- no idle keys

  ghost predicate Positive(t: Tally) {
    forall k :: k in t ==> t[k] > 0
  }

  /** Every key shown has a positive figure. */
  ghost predicate AllPositive(r: Report) {
    && Positive(r.canonical) && Positive(r.typos) && Positive(r.aliases)
    && forall d :: d in r.hierarchy ==> r.hierarchy[d].total > 0 && Positive(r.hierarchy[d].actions)
  }

  lemma TickPositive(r: Report, kind: Class, name: string, c: int)
    requires AllPositive(r) && c > 0
    ensures AllPositive(Tick(r, kind, name, c))
  {
  }

  /** Counts that are not positive leave no trace. */
  lemma {:induction false} OnlyPositiveShown(counts: Counts)
    ensures AllPositive(Process(counts))
  {
    if counts != [] {
      var last := counts[|counts| - 1];
      OnlyPositiveShown(counts[..|counts| - 1]);
      if last.1 > 0 {
        TickPositive(Process(counts[..|counts| - 1]), ClassifyCommand(last.0), Lower(Sanitize(last.0)), last.1);
      }
    }
  }
}
