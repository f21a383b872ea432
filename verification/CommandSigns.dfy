/** Exactly when summing the raw counters first is the same as summing the reports: clients may send negative counts. */
module CommandSigns {
  import opened Text
  import opened Sums
  import opened Commands
  import opened CommandLaws

  /** Some snapshot has the name with a positive count. */
  ghost predicate Gained(snapshots: seq<Counts>, raw: string) {
    exists i, j :: 0 <= i < |snapshots| && 0 <= j < |snapshots[i]| && snapshots[i][j].0 == raw && snapshots[i][j].1 > 0
  }

  /** Some snapshot has the name with a negative count. */
  ghost predicate Lost(snapshots: seq<Counts>, raw: string) {
    exists i, j :: 0 <= i < |snapshots| && 0 <= j < |snapshots[i]| && snapshots[i][j].0 == raw && snapshots[i][j].1 < 0
  }

  /** A name that counts occurs with both signs. */
  ghost predicate MixedSigns(snapshots: seq<Counts>) {
    exists raw :: !ClassifyCommand(raw).Discarded? && Gained(snapshots, raw) && Lost(snapshots, raw)
  }

  // ---------------------------------------------------------------- without mixed signs

  ghost function Gainers(snapshots: seq<Counts>): set<string> {
    set i, j | 0 <= i < |snapshots| && 0 <= j < |snapshots[i]| && snapshots[i][j].1 > 0 :: snapshots[i][j].0
  }

  /** Discarded names are free; the others have one sign each. */
  function OneSign(gainers: set<string>): Admits {
    (raw: string, c: int) => ClassifyCommand(raw).Discarded? || (if raw in gainers then c >= 0 else c <= 0)
  }

  lemma OneSignAdds(gainers: set<string>)
    ensures Additive(PlusReport, Unit, OneSign(gainers))
  {
    var ok := OneSign(gainers);
    forall raw: string, b: int, c: int | ok(raw, b) && ok(raw, c)
      ensures ok(raw, b + c) && PlusReport(Unit(raw, b), Unit(raw, c)) == Unit(raw, b + c)
    {
      UnitAdds(raw, b, c);
    }
  }

  lemma UnmixedHaveOneSign(snapshots: seq<Counts>, i: nat)
    requires !MixedSigns(snapshots) && i < |snapshots|
    ensures All(OneSign(Gainers(snapshots)), snapshots[i])
  {
    var gainers := Gainers(snapshots);
    forall j | 0 <= j < |snapshots[i]| ensures OneSign(gainers)(snapshots[i][j].0, snapshots[i][j].1) {
      var (raw, c) := snapshots[i][j];
      if raw in gainers && c < 0 {
        assert Lost(snapshots, raw);
        var p, q :|
          0 <= p < |snapshots| && 0 <= q < |snapshots[p]| && snapshots[p][q].1 > 0 && snapshots[p][q].0 == raw;
        assert Gained(snapshots, raw);
      }
    }
  }

  // ---------------------------------------------------------------- with mixed signs

  /** The positive counts of one name. */
  function Ups(counts: Counts, raw: string): nat {
    if counts == [] then 0
    else
      var last := counts[|counts| - 1];
      Ups(counts[..|counts| - 1], raw) + if last.0 == raw && last.1 > 0 then last.1 else 0
  }

  /** All counts of one name. */
  function Net(counts: Counts, raw: string): int {
    if counts == [] then 0
    else
      var last := counts[|counts| - 1];
      Net(counts[..|counts| - 1], raw) + if last.0 == raw then last.1 else 0
  }

  /** What a figure owes to the other names. */
  function Others(counts: Counts, f: Figure, raw: string): int {
    if counts == [] then 0
    else
      var last := counts[|counts| - 1];
      Others(counts[..|counts| - 1], f, raw) + if last.0 != raw then Share(f, last.0, last.1) else 0
  }

  /** What one entry adds to a figure. */
  function Share(f: Figure, raw: string, c: int): int {
    if c > 0 && Concerns(f, ClassifyCommand(raw), Lower(Sanitize(raw))) then c else 0
  }

  lemma {:induction false} CountedSplit(counts: Counts, f: Figure, raw: string)
    requires Concerns(f, ClassifyCommand(raw), Lower(Sanitize(raw)))
    ensures Counted(counts, f) == Others(counts, f, raw) + Ups(counts, raw)
  {
    if counts != [] { CountedSplit(counts[..|counts| - 1], f, raw); }
  }

  predicate OneEach(counter: Counts) {
    forall i, j :: 0 <= i < j < |counter| ==> counter[i].0 != counter[j].0
  }

  lemma {:induction false} AddCountNames(counter: Counts, cmd: string, c: int)
    requires OneEach(counter)
    ensures OneEach(AddCount(counter, cmd, c))
    ensures forall i :: 0 <= i < |AddCount(counter, cmd, c)| ==>
              AddCount(counter, cmd, c)[i].0 == cmd
              || exists j :: 0 <= j < |counter| && counter[j].0 == AddCount(counter, cmd, c)[i].0
  {
    if counter != [] {
      var before, last := counter[..|counter| - 1], counter[|counter| - 1];
      if last.0 == cmd {
        var after := before + [(cmd, last.1 + c)];
        forall i | 0 <= i < |after| ensures after[i].0 == counter[i].0 {}
      } else {
        AddCountNames(before, cmd, c);
        var after := AddCount(before, cmd, c);
        forall i | 0 <= i < |after| ensures after[i].0 != last.0 {
          if after[i].0 != cmd {
            var j :| 0 <= j < |before| && before[j].0 == after[i].0;
            assert counter[j].0 != counter[|counter| - 1].0;
          }
        }
        assert forall i :: 0 <= i < |before| ==> before[i] == counter[i];
      }
    }
  }

  lemma {:induction false} AddCountNet(counter: Counts, cmd: string, c: int, raw: string)
    ensures Net(AddCount(counter, cmd, c), raw) == Net(counter, raw) + if cmd == raw then c else 0
  {
    if counter != [] { AddCountNet(counter[..|counter| - 1], cmd, c, raw); }
  }

  lemma {:induction false} AddCountOthers(counter: Counts, cmd: string, c: int, f: Figure, raw: string)
    ensures Others(AddCount(counter, cmd, c), f, raw)
            <= Others(counter, f, raw) + if cmd != raw then Share(f, cmd, c) else 0
  {
    if counter != [] { AddCountOthers(counter[..|counter| - 1], cmd, c, f, raw); }
  }

  lemma {:induction false} MergeFacts(counter: Counts, counts: Counts, f: Figure, raw: string)
    requires OneEach(counter)
    ensures OneEach(Merge(counter, counts))
    ensures Net(Merge(counter, counts), raw) == Net(counter, raw) + Net(counts, raw)
    ensures Others(Merge(counter, counts), f, raw) <= Others(counter, f, raw) + Others(counts, f, raw)
  {
    if counts != [] {
      var before, last := counts[..|counts| - 1], counts[|counts| - 1];
      MergeFacts(counter, before, f, raw);
      AddCountNames(Merge(counter, before), last.0, last.1);
      AddCountNet(Merge(counter, before), last.0, last.1, raw);
      AddCountOthers(Merge(counter, before), last.0, last.1, f, raw);
    }
  }

  function UpsAll(snapshots: seq<Counts>, raw: string): nat {
    if snapshots == [] then 0 else UpsAll(snapshots[..|snapshots| - 1], raw) + Ups(snapshots[|snapshots| - 1], raw)
  }

  function NetAll(snapshots: seq<Counts>, raw: string): int {
    if snapshots == [] then 0 else NetAll(snapshots[..|snapshots| - 1], raw) + Net(snapshots[|snapshots| - 1], raw)
  }

  function OthersAll(snapshots: seq<Counts>, f: Figure, raw: string): int {
    if snapshots == [] then 0
    else OthersAll(snapshots[..|snapshots| - 1], f, raw) + Others(snapshots[|snapshots| - 1], f, raw)
  }

  lemma {:induction false} MergeAllFacts(snapshots: seq<Counts>, f: Figure, raw: string)
    ensures OneEach(MergeAll(snapshots))
    ensures Net(MergeAll(snapshots), raw) == NetAll(snapshots, raw)
    ensures Others(MergeAll(snapshots), f, raw) <= OthersAll(snapshots, f, raw)
  {
    if snapshots != [] {
      MergeAllFacts(snapshots[..|snapshots| - 1], f, raw);
      MergeFacts(MergeAll(snapshots[..|snapshots| - 1]), snapshots[|snapshots| - 1], f, raw);
    }
  }

  lemma {:induction false} AbsentName(counter: Counts, raw: string)
    requires forall i :: 0 <= i < |counter| ==> counter[i].0 != raw
    ensures Net(counter, raw) == 0 && Ups(counter, raw) == 0
  {
    if counter != [] { AbsentName(counter[..|counter| - 1], raw); }
  }

  /** A merged counter keeps of a name what is left of it, if that is positive. */
  lemma {:induction false} MergedUps(counter: Counts, raw: string)
    requires OneEach(counter)
    ensures Ups(counter, raw) == if Net(counter, raw) > 0 then Net(counter, raw) else 0
  {
    if counter != [] {
      var before := counter[..|counter| - 1];
      MergedUps(before, raw);
      if counter[|counter| - 1].0 == raw { AbsentName(before, raw); }
    }
  }

  lemma {:induction false} NetBelowUps(counts: Counts, raw: string, j: nat)
    ensures Net(counts, raw) <= Ups(counts, raw)
    ensures j < |counts| && counts[j].0 == raw && counts[j].1 < 0 ==> Net(counts, raw) < Ups(counts, raw)
    ensures j < |counts| && counts[j].0 == raw && counts[j].1 > 0 ==> 0 < Ups(counts, raw)
  {
    if counts != [] { NetBelowUps(counts[..|counts| - 1], raw, j); }
  }

  lemma {:induction false} NetAllBelowUps(snapshots: seq<Counts>, raw: string, i: nat, j: nat)
    ensures NetAll(snapshots, raw) <= UpsAll(snapshots, raw)
    ensures i < |snapshots| && j < |snapshots[i]| && snapshots[i][j].0 == raw && snapshots[i][j].1 < 0
            ==> NetAll(snapshots, raw) < UpsAll(snapshots, raw)
    ensures i < |snapshots| && j < |snapshots[i]| && snapshots[i][j].0 == raw && snapshots[i][j].1 > 0
            ==> 0 < UpsAll(snapshots, raw)
  {
    if snapshots != [] {
      NetAllBelowUps(snapshots[..|snapshots| - 1], raw, i, j);
      NetBelowUps(snapshots[|snapshots| - 1], raw, j);
    }
  }

  lemma ReadPlus(r: Report, s: Report, f: Figure)
    requires f.OfDomain? || f.OfTypo?
    ensures Read(PlusReport(r, s), f) == Read(r, f) + Read(s, f)
  {
    if f.OfDomain? { GetPlus(r.canonical, s.canonical, f.d); } else { GetPlus(r.typos, s.typos, f.t); }
  }

  lemma GetPlus(t: Tally, u: Tally, k: string)
    ensures Get(Plus(t, u), k) == Get(t, k) + Get(u, k)
  {
  }

  lemma {:induction false} ReadSum(snapshots: seq<Counts>, f: Figure, raw: string)
    requires f.OfDomain? || f.OfTypo?
    requires Concerns(f, ClassifyCommand(raw), Lower(Sanitize(raw)))
    ensures Read(SumReports(snapshots), f) == OthersAll(snapshots, f, raw) + UpsAll(snapshots, raw)
  {
    if snapshots != [] {
      var before, last := snapshots[..|snapshots| - 1], snapshots[|snapshots| - 1];
      ReadSum(before, f, raw);
      ReadPlus(SumReports(before), Process(last), f);
      FiguresAreCounts(last, f);
      CountedSplit(last, f, raw);
    }
  }

  /** The figure a name always goes into. */
  function FigureOf(kind: Class): Figure
    requires !kind.Discarded?
  {
    if kind.Command? then OfDomain(kind.domain) else OfTypo(kind.typo)
  }

  /** A name with both signs cancels in the merged counter, but not in the reports: its figure comes out too small. */
  lemma {:induction false} MixedFallsShort(snapshots: seq<Counts>, raw: string)
    requires !ClassifyCommand(raw).Discarded? && Gained(snapshots, raw) && Lost(snapshots, raw)
    ensures Read(Process(MergeAll(snapshots)), FigureOf(ClassifyCommand(raw)))
            < Read(SumReports(snapshots), FigureOf(ClassifyCommand(raw)))
  {
    var f := FigureOf(ClassifyCommand(raw));
    var i, j :| 0 <= i < |snapshots| && 0 <= j < |snapshots[i]| && snapshots[i][j].0 == raw && snapshots[i][j].1 > 0;
    NetAllBelowUps(snapshots, raw, i, j);
    var p, q :| 0 <= p < |snapshots| && 0 <= q < |snapshots[p]| && snapshots[p][q].0 == raw && snapshots[p][q].1 < 0;
    NetAllBelowUps(snapshots, raw, p, q);
    MergeAllFacts(snapshots, f, raw);
    MergedUps(MergeAll(snapshots), raw);
    FiguresAreCounts(MergeAll(snapshots), f);
    CountedSplit(MergeAll(snapshots), f, raw);
    ReadSum(snapshots, f, raw);
  }

  // ---------------------------------------------------------------- the exact condition

  /** Summing the raw counters of the snapshots and classifying once gives what classifying each and adding gives, in
      whatever order they come, if and only if no name that counts occurs with both signs. */
  lemma {:induction false} ClassificationIsAdditive(snapshots: seq<Counts>, shuffled: seq<Counts>)
    requires multiset(snapshots) == multiset(shuffled)
    ensures Process(MergeAll(snapshots)) == SumReports(shuffled) <==> !MixedSigns(snapshots)
  {
    if MixedSigns(snapshots) {
      var raw :| !ClassifyCommand(raw).Discarded? && Gained(snapshots, raw) && Lost(snapshots, raw);
      MixedFallsShort(snapshots, raw);
      ReportsInAnyOrder(snapshots, shuffled);
    } else {
      OneSignAdds(Gainers(snapshots));
      forall i | 0 <= i < |snapshots| ensures All(OneSign(Gainers(snapshots)), snapshots[i]) {
        UnmixedHaveOneSign(snapshots, i);
      }
      MergedIsSummed(OneSign(Gainers(snapshots)), snapshots, shuffled);
    }
  }

  /** The smallest failing family: one name, once with each sign. */
  lemma {:induction false} NegativeCountsBreakIt(raw: string, b: int, c: int)
    requires !ClassifyCommand(raw).Discarded? && c < 0 < b
    ensures Process(MergeAll([[(raw, b)], [(raw, c)]])) != SumReports([[(raw, b)], [(raw, c)]])
  {
    var s: seq<Counts> := [[(raw, b)], [(raw, c)]];
    assert s[0][0] == (raw, b) && s[1][0] == (raw, c);
    ClassificationIsAdditive(s, s);
  }

  /** Counts that are not negative, the usual ones, always add up. */
  lemma {:induction false} NonNegativeIsAdditive(snapshots: seq<Counts>, shuffled: seq<Counts>)
    requires multiset(snapshots) == multiset(shuffled)
    requires forall i :: 0 <= i < |snapshots| ==> NonNegative(snapshots[i])
    ensures Process(MergeAll(snapshots)) == SumReports(shuffled)
  {
    ClassificationIsAdditive(snapshots, shuffled);
  }
}
