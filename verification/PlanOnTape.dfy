/** What the planner's parts take on the tape: the sizes of the regular files in their tar
    streams (internal/domain/span.go:105-118, internal/adapter/tapeformat/encoder.go:208-262).
    The theorems of the planner are stated here for files, measured by their tar entries. */
module PlansOnTape {
  import opened Domain
  import opened SpanPlanner
  import opened SpanPlannerTheorems
  import opened TapeFormat
  import Grouping

  // ----- Measuring -----------------------------------------------------------------------

  /** The bytes a tar stream holds for its regular files. */
  function RegBytes(entries: seq<TarEntry>): int {
    if entries == [] then 0
    else (if entries[0].kind == RegEntry then entries[0].size else 0) + RegBytes(entries[1..])
  }

  lemma {:induction false} RegBytesConcat(a: seq<TarEntry>, b: seq<TarEntry>)
    ensures RegBytes(a + b) == RegBytes(a) + RegBytes(b)
  {
    if a == [] {
      assert a + b == b;
    } else {
      assert (a + b)[1..] == a[1..] + b;
      RegBytesConcat(a[1..], b);
    }
  }

  lemma {:induction false} EntriesConcat(a: seq<FileMeta>, b: seq<FileMeta>, content: Content)
    ensures EntriesOf(a + b, content) == EntriesOf(a, content) + EntriesOf(b, content)
  {
    hide EntryOf;
    if a == [] {
      assert a + b == b;
    } else {
      assert (a + b)[1..] == a[1..] + b;
      EntriesConcat(a[1..], b, content);
    }
  }

  /** What the files take in a tar stream. */
  function OnTape(files: seq<FileMeta>, content: Content): int {
    RegBytes(EntriesOf(files, content))
  }

  lemma OnTapeConcat(a: seq<FileMeta>, b: seq<FileMeta>, content: Content)
    ensures OnTape(a + b, content) == OnTape(a, content) + OnTape(b, content)
  {
    EntriesConcat(a, b, content);
    RegBytesConcat(EntriesOf(a, content), EntriesOf(b, content));
  }

  lemma OnTapeOne(fm: FileMeta, content: Content)
    ensures OnTape([fm], content) ==
      if fm.state == "D" || fm.isDir || fm.typ == "sym" || fm.typ == "lnk" then 0 else fm.size
  {
    assert [fm][1..] == [] && EntriesOf([], content) == [];
    assert "reg"[0] != "sym"[0] && "reg"[0] != "lnk"[0];
    if fm.state == "D" {
      assert EntriesOf([fm], content) == [];
    } else {
      var e := EntryOf(fm, content);
      assert EntriesOf([fm], content) == [e] && [e][1..] == [];
      assert RegBytes([]) == 0 && RegBytes([e]) == if e.kind == RegEntry then e.size else 0;
    }
  }

  /** The budget a file is charged is what it takes in the tar stream. */
  lemma CostIsOnTape(fm: FileMeta, content: Content)
    ensures SpanCost(fm) == OnTape([fm], content)
  {
    hide OnTape;
    OnTapeOne(fm, content);
  }

  // Entries of files, each with the cost of its file.
  ghost predicate Costed(part: seq<Entry<FileMeta>>) {
    forall i :: 0 <= i < |part| ==> part[i].cost == SpanCost(part[i].item)
  }

  lemma {:induction false} TotalIsOnTape(part: seq<Entry<FileMeta>>, content: Content)
    requires Costed(part)
    ensures Total(part) == OnTape(SpanPlanner.Items(part), content)
  {
    hide OnTape, SpanCost;
    if part == [] {
      NothingOnTape(content);
    } else {
      var n := |part| - 1;
      TotalIsOnTape(part[..n], content);
      assert SpanPlanner.Items(part) == SpanPlanner.Items(part[..n]) + [part[n].item];
      OnTapeConcat(SpanPlanner.Items(part[..n]), [part[n].item], content);
      CostIsOnTape(part[n].item, content);
    }
  }

  lemma NothingOnTape(content: Content)
    ensures OnTape([], content) == 0
  {
  }

  // Every part of a plan is made of entries of its files.
  lemma {:induction false} PartsAreCosted(parts: seq<seq<Entry<FileMeta>>>)
    requires Costed(Flatten(parts))
    ensures forall j :: 0 <= j < |parts| ==> Costed(parts[j])
  {
    if parts != [] {
      var m := |parts| - 1;
      var front, last := Flatten(parts[..m]), parts[m];
      var all := front + last;
      assert forall i :: 0 <= i < |front| ==> front[i] == all[i];
      assert forall i :: 0 <= i < |last| ==> last[i] == all[|front| + i];
      PartsAreCosted(parts[..m]);
    }
  }

  ghost predicate NoNegativeSize(files: seq<FileMeta>) {
    forall i :: 0 <= i < |files| ==> files[i].size >= 0
  }

  lemma EntriesAre(files: seq<FileMeta>, roots: seq<string>, depth: int)
    ensures var es := Entries(files, Grouper(roots, depth));
      Costed(es) && SpanPlanner.Items(es) == files && (NoNegativeSize(files) ==> NonNegative(es))
  {
  }

  // ----- Parts of files --------------------------------------------------------------------

  /** In every part the regular files take at most the budget, and no part is empty. */
  lemma PartsFitCartridges(files: seq<FileMeta>, budget: int, roots: seq<string>, depth: int, content: Content, j: nat)
    requires NoNegativeSize(files) && budget > 0
    requires var r := FilePlan(files, budget, roots, depth); r.Planned? && j < |r.parts|
    ensures var part := FilePlan(files, budget, roots, depth).parts[j];
      OnTape(part, content) <= budget && (files != [] ==> part != [])
  {
    hide Plan, Total, SpanCost, OnTape, Grouper;
    var es, grouped := Entries(files, Grouper(roots, depth)), budget > 0 && depth > 0;
    EntriesAre(files, roots, depth);
    PlanKeepsOrder(es, budget, grouped);
    PlanFillsParts(es, budget, grouped, j);
    var parts := Plan(es, budget, grouped).parts;
    PartsAreCosted(parts);
    TotalIsOnTape(parts[j], content);
  }

  /** Planning fails exactly if a single tar entry is larger than the budget; the file named
      is one of those that make such an entry. */
  lemma PlanningFailsExactly(files: seq<FileMeta>, budget: int, roots: seq<string>, depth: int, content: Content)
    ensures var r := FilePlan(files, budget, roots, depth);
      && (r.TooLarge? <==> budget > 0 && TooLargeEntry(EntriesOf(files, content), budget))
      && (r.TooLarge? ==>
          r.item in files && r.capacity == budget && TooLargeEntry(EntriesOf([r.item], content), budget))
  {
    hide Plan, Grouper, SpanCost, EntryOf;
    var es, grouped := Entries(files, Grouper(roots, depth)), budget > 0 && depth > 0;
    PlanFailsExactly(es, budget, grouped);
    if budget > 0 {
      TooLargeFile(files, budget, content);
      var r := FilePlan(files, budget, roots, depth);
      if r.TooLarge? {
        TooLargeFile([r.item], budget, content);
      }
    }
  }

  ghost predicate TooLargeEntry(entries: seq<TarEntry>, budget: int) {
    exists k :: 0 <= k < |entries| && entries[k].kind == RegEntry && entries[k].size > budget
  }

  lemma TooLargeEntries(a: seq<TarEntry>, b: seq<TarEntry>, budget: int)
    ensures TooLargeEntry(a + b, budget) <==> TooLargeEntry(a, budget) || TooLargeEntry(b, budget)
  {
    var all := a + b;
    if k :| 0 <= k < |all| && all[k].kind == RegEntry && all[k].size > budget {
      assert if k < |a| then all[k] == a[k] else all[k] == b[k - |a|];
    }
    assert forall k :: 0 <= k < |a| ==> all[k] == a[k];
    assert forall k :: 0 <= k < |b| ==> b[k] == all[|a| + k];
  }

  lemma TooLargeOne(fm: FileMeta, budget: int, content: Content)
    requires budget > 0
    ensures TooLargeEntry(EntriesOf([fm], content), budget) <==> SpanCost(fm) > budget
  {
    assert [fm][1..] == [];
    if !fm.IsDeleted() {
      assert EntriesOf([fm], content) == [EntryOf(fm, content)];
      assert TooLargeEntry(EntriesOf([fm], content), budget) <==>
             EntryOf(fm, content).kind == RegEntry && EntryOf(fm, content).size > budget by {
        if EntryOf(fm, content).kind == RegEntry && EntryOf(fm, content).size > budget {
          assert EntriesOf([fm], content)[0] == EntryOf(fm, content);
        }
      }
    }
  }

  lemma {:induction false} TooLargeFile(files: seq<FileMeta>, budget: int, content: Content)
    requires budget > 0
    ensures TooLargeEntry(EntriesOf(files, content), budget) <==>
      exists i :: 0 <= i < |files| && SpanCost(files[i]) > budget
  {
    hide TooLargeEntry, SpanCost, EntriesOf;
    if files == [] {
      NoEntries(content, budget);
    } else {
      var n := |files| - 1;
      TooLargeFile(files[..n], budget, content);
      TooLargeOne(files[n], budget, content);
      assert files == files[..n] + [files[n]];
      EntriesConcat(files[..n], [files[n]], content);
      TooLargeEntries(EntriesOf(files[..n], content), EntriesOf([files[n]], content), budget);
    }
  }

  lemma NoEntries(content: Content, budget: int)
    ensures !TooLargeEntry(EntriesOf([], content), budget)
  {
  }

  /** Without grouping no partition that keeps the order, and fits the budget on the tape, has
      fewer parts. */
  lemma PlanningIsOptimal(files: seq<FileMeta>, budget: int, roots: seq<string>, content: Content,
                          other: seq<seq<FileMeta>>)
    requires NoNegativeSize(files) && budget > 0
    requires other != [] && Flatten(other) == files
    requires forall j :: 0 <= j < |other| ==> OnTape(other[j], content) <= budget
    ensures var r := FilePlan(files, budget, roots, 0);
      r.Planned? && |r.parts| <= |other|
  {
    hide Plan, Total, SpanCost, OnTape, Grouper;
    var costed := EachOf(other, roots, 0);
    EntriesAre(files, roots, 0);
    EachFlattens(other, roots, 0);
    forall j | 0 <= j < |costed|
      ensures Total(costed[j]) <= budget
    {
      EntriesAre(other[j], roots, 0);
      TotalIsOnTape(costed[j], content);
    }
    PlanIsOptimal(Entries(files, Grouper(roots, 0)), budget, costed);
  }

  function EachOf(lists: seq<seq<FileMeta>>, roots: seq<string>, depth: int): (r: seq<seq<Entry<FileMeta>>>)
    ensures |r| == |lists| && forall j :: 0 <= j < |r| ==> r[j] == Entries(lists[j], Grouper(roots, depth))
  {
    seq(|lists|, j requires 0 <= j < |lists| => Entries(lists[j], Grouper(roots, depth)))
  }

  lemma {:induction false} EachFlattens(lists: seq<seq<FileMeta>>, roots: seq<string>, depth: int)
    ensures Flatten(EachOf(lists, roots, depth)) == Entries(Flatten(lists), Grouper(roots, depth))
  {
    hide Grouper, SpanCost;
    if lists != [] {
      var m := |lists| - 1;
      EachFlattens(lists[..m], roots, depth);
      assert EachOf(lists, roots, depth)[..m] == EachOf(lists[..m], roots, depth);
    }
  }

  // ----- Groups of files -----------------------------------------------------------------------

  /** The files of one directory group, wherever they stand. */
  function OfGroup(files: seq<FileMeta>, key: string, roots: seq<string>, depth: int): seq<FileMeta> {
    if files == [] then []
    else
      var n := |files| - 1;
      OfGroup(files[..n], key, roots, depth)
      + if Grouping.EntryGroup(files[n], roots, depth) == key then [files[n]] else []
  }

  lemma {:induction false} GroupOnTape(files: seq<FileMeta>, key: string, roots: seq<string>, depth: int,
                                       content: Content)
    ensures GroupTotal(Entries(files, Grouper(roots, depth)), key) == OnTape(OfGroup(files, key, roots, depth), content)
  {
    hide SpanCost, Grouping.EntryGroup, OnTape;
    var es := Entries(files, Grouper(roots, depth));
    if files == [] {
      NothingOnTape(content);
    } else {
      var n := |files| - 1;
      GroupOnTape(files[..n], key, roots, depth, content);
      assert es[..n] == Entries(files[..n], Grouper(roots, depth));
      CostIsOnTape(files[n], content);
      var front := OfGroup(files[..n], key, roots, depth);
      OnTapeConcat(front, [files[n]], content);
      assert front + [] == front;
    }
  }

  /** Between two parts the directory group changes, unless its files take more than the
      budget. */
  lemma DirectoriesStayTogether(files: seq<FileMeta>, budget: int, roots: seq<string>, depth: int, content: Content,
                                j: nat)
    requires NoNegativeSize(files) && budget > 0 && depth > 0
    requires var r := FilePlan(files, budget, roots, depth); r.Planned? && 0 < j < |r.parts|
    ensures var b := |Flatten(FilePlan(files, budget, roots, depth).parts[..j])|;
      && 0 < b < |files|
      && var left := Grouping.EntryGroup(files[b - 1], roots, depth);
         var right := Grouping.EntryGroup(files[b], roots, depth);
         left != right || OnTape(OfGroup(files, right, roots, depth), content) > budget
  {
    hide Plan, SpanCost, OnTape, Grouping.EntryGroup, OfGroup, GroupTotal;
    var es := Entries(files, Grouper(roots, depth));
    EntriesAre(files, roots, depth);
    GroupsStayTogether(es, budget, j);
    var parts := Plan(es, budget, true).parts;
    ItemsFlatten(parts[..j]);
    assert ItemParts(parts)[..j] == ItemParts(parts[..j]);
    var b := |Flatten(parts[..j])|;
    GroupOnTape(files, es[b].key, roots, depth, content);
  }

  /** Maximal stretches of one directory group. */
  ghost predicate FileRuns(runs: seq<seq<FileMeta>>, roots: seq<string>, depth: int) {
    && (forall i :: 0 <= i < |runs| ==> FileRun(runs[i], roots, depth))
    && (forall i :: 0 < i < |runs| ==> FileEdge(runs[i - 1], runs[i], roots, depth))
  }

  ghost predicate FileRun(run: seq<FileMeta>, roots: seq<string>, depth: int) {
    && run != []
    && forall i :: 0 <= i < |run| ==>
         Grouping.EntryGroup(run[i], roots, depth) == Grouping.EntryGroup(run[0], roots, depth)
  }

  ghost predicate FileEdge(left: seq<FileMeta>, right: seq<FileMeta>, roots: seq<string>, depth: int) {
    && left != [] && right != []
    && Grouping.EntryGroup(left[0], roots, depth) != Grouping.EntryGroup(right[0], roots, depth)
  }

  function WholesOf(runs: seq<seq<FileMeta>>, roots: seq<string>, depth: int): seq<Entry<seq<Entry<FileMeta>>>> {
    Wholes(EachOf(runs, roots, depth))
  }

  function WholeParts(other: seq<seq<seq<FileMeta>>>, roots: seq<string>, depth: int)
    : (r: seq<seq<Entry<seq<Entry<FileMeta>>>>>)
    ensures |r| == |other| && forall j :: 0 <= j < |r| ==> r[j] == WholesOf(other[j], roots, depth)
  {
    seq(|other|, j requires 0 <= j < |other| => WholesOf(other[j], roots, depth))
  }

  lemma {:induction false} WholePartsFlatten(other: seq<seq<seq<FileMeta>>>, roots: seq<string>, depth: int)
    ensures Flatten(WholeParts(other, roots, depth)) == WholesOf(Flatten(other), roots, depth)
  {
    hide Grouper, SpanCost, Total;
    if other != [] {
      var m := |other| - 1;
      WholePartsFlatten(other[..m], roots, depth);
      assert WholeParts(other, roots, depth)[..m] == WholeParts(other[..m], roots, depth);
    }
  }

  lemma {:induction false} WholesOnTape(runs: seq<seq<FileMeta>>, roots: seq<string>, depth: int, content: Content)
    ensures Total(WholesOf(runs, roots, depth)) == OnTape(Flatten(runs), content)
  {
    hide Grouper, SpanCost, OnTape;
    if runs == [] {
      NothingOnTape(content);
    } else {
      var m := |runs| - 1;
      WholesOnTape(runs[..m], roots, depth, content);
      assert WholesOf(runs, roots, depth)[..m] == WholesOf(runs[..m], roots, depth);
      OnTapeConcat(Flatten(runs[..m]), runs[m], content);
      EntriesAre(runs[m], roots, depth);
      TotalIsOnTape(Entries(runs[m], Grouper(roots, depth)), content);
    }
  }

  /** With grouping, when every directory group fits a cartridge, no partition that keeps the
      groups whole, and fits the budget on the tape, has fewer parts. */
  lemma GroupedPlanningIsOptimal(runs: seq<seq<FileMeta>>, budget: int, roots: seq<string>, depth: int,
                                 content: Content, other: seq<seq<seq<FileMeta>>>)
    requires budget > 0 && depth > 0 && FileRuns(runs, roots, depth) && NoNegativeSize(Flatten(runs))
    requires forall fm :: fm in Flatten(runs) ==>
      OnTape(OfGroup(Flatten(runs), Grouping.EntryGroup(fm, roots, depth), roots, depth), content) <= budget
    requires other != [] && Flatten(other) == runs
    requires forall j :: 0 <= j < |other| ==> OnTape(Flatten(other[j]), content) <= budget
    ensures var r := FilePlan(Flatten(runs), budget, roots, depth);
      r.Planned? && |r.parts| <= |other|
  {
    hide Plan, SpanCost, OnTape, Grouping.EntryGroup, OfGroup, GroupTotal, Total;
    var files, each, wholes := Flatten(runs), EachOf(runs, roots, depth), WholeParts(other, roots, depth);
    var es := Entries(files, Grouper(roots, depth));
    EntriesAre(files, roots, depth);
    EachFlattens(runs, roots, depth);
    RunsAreGroups(runs, roots, depth);
    forall i | 0 <= i < |es|
      ensures GroupTotal(es, es[i].key) <= budget
    {
      assert files[i] in files;
      GroupOnTape(files, es[i].key, roots, depth, content);
    }
    WholePartsFlatten(other, roots, depth);
    forall j | 0 <= j < |wholes|
      ensures Total(wholes[j]) <= budget
    {
      WholesOnTape(other[j], roots, depth, content);
    }
    GroupedPlanIsOptimal(each, budget, wholes);
  }

  lemma RunsAreGroups(runs: seq<seq<FileMeta>>, roots: seq<string>, depth: int)
    requires FileRuns(runs, roots, depth)
    ensures GroupRuns(EachOf(runs, roots, depth))
  {
    hide SpanCost, Grouping.EntryGroup;
    var each := EachOf(runs, roots, depth);
    forall i | 0 <= i < |each|
      ensures OneGroup(each[i])
    {
      assert FileRun(runs[i], roots, depth);
    }
    forall i | 0 < i < |each|
      ensures GroupEdge(each[i - 1], each[i])
    {
      assert FileEdge(runs[i - 1], runs[i], roots, depth);
    }
  }
}
