/** The part planner: entries are packed in scanner order into parts of one cartridge
    budget, optionally without tearing directory groups apart
    (internal/domain/span.go).

    The planner is generic in the packed item, so that the same function describes the
    planner on files and the planner on whole groups. */
module SpanPlanner {
  import opened Domain
  import Grouping

  // An item with the budget it takes and the directory group it belongs to.
  datatype Entry<T> = Entry(item: T, cost: int, key: string)

  // ----- Costs, parts, flattening ---------------------------------------------------

  /** Budget taken by a file: directories, tombstones and links are free. */
  function SpanCost(fm: FileMeta): int {
    if fm.isDir || fm.IsDeleted() || fm.IsSymlink() || fm.IsHardlink() then 0 else fm.size
  }

  function Total<T>(part: seq<Entry<T>>): int {
    if part == [] then 0 else Total(part[..|part| - 1]) + part[|part| - 1].cost
  }

  function Flatten<T>(parts: seq<seq<T>>): seq<T> {
    if parts == [] then [] else Flatten(parts[..|parts| - 1]) + parts[|parts| - 1]
  }

  /** Budget of all entries of one group, wherever they stand. */
  function GroupTotal<T>(files: seq<Entry<T>>, key: string): int {
    if files == [] then 0
    else
      var n := |files| - 1;
      GroupTotal(files[..n], key) + if files[n].key == key then files[n].cost else 0
  }

  ghost predicate NonNegative<T>(files: seq<Entry<T>>) {
    forall i :: 0 <= i < |files| ==> 0 <= files[i].cost
  }

  // ----- The planner as a function --------------------------------------------------

  // The accumulator: closed parts, the open part, its cost, and where the group of its
  // tail began (-1: no group yet).
  datatype State<T> = State(
    parts: seq<seq<Entry<T>>>,
    cur: seq<Entry<T>>,
    used: int,
    curKey: string,
    groupStart: int)
  {
    predicate Valid() { -1 <= groupStart <= |cur| }
  }

  function Initial<T>(): State<T> { State([], [], 0, "", -1) }

  function Pushed<T>(st: State<T>, e: Entry<T>, grouped: bool): (r: State<T>)
    requires st.Valid()
    ensures r.Valid()
  {
    var st' := st.(cur := st.cur + [e], used := st.used + e.cost);
    if grouped && (st.groupStart < 0 || e.key != st.curKey)
    then st'.(curKey := e.key, groupStart := |st.cur|)
    else st'
  }

  function CutOff<T>(st: State<T>): (r: State<T>)
    ensures r.Valid()
  {
    st.(parts := st.parts + [st.cur], cur := [], used := 0, groupStart := -1)
  }

  function RolledBack<T>(st: State<T>, e: Entry<T>): (r: State<T>)
    requires st.Valid() && st.groupStart >= 0
    ensures r.Valid()
  {
    var head := st.cur[..st.groupStart];
    var moved := st.cur[st.groupStart..] + [e];
    State(if head == [] then st.parts else st.parts + [head], moved, Total(moved), e.key, 0)
  }

  function Step<T>(st: State<T>, e: Entry<T>, groupTotal: int, budget: int, grouped: bool): (r: State<T>)
    requires st.Valid()
    ensures r.Valid()
  {
    if budget > 0 && e.cost > budget - st.used then
      if grouped && e.key == st.curKey && st.groupStart >= 0 && groupTotal <= budget
      then RolledBack(st, e)
      else Pushed(CutOff(st), e, grouped)
    else Pushed(st, e, grouped)
  }

  /** The accumulator after the first n entries. */
  function Run<T>(files: seq<Entry<T>>, budget: int, grouped: bool, n: nat): (r: State<T>)
    requires n <= |files|
    ensures r.Valid()
  {
    if n == 0 then Initial()
    else Step(Run(files, budget, grouped, n - 1), files[n - 1], GroupTotal(files, files[n - 1].key), budget, grouped)
  }

  datatype PlanResult<T> = Planned(parts: seq<seq<T>>) | TooLarge(item: T, capacity: int)

  /** Number of leading entries that fit the budget, counted from `from`. */
  function FittingPrefix<T>(files: seq<Entry<T>>, budget: int, from: nat): (r: nat)
    requires from <= |files|
    ensures from <= r <= |files|
    ensures forall i :: from <= i < r ==> files[i].cost <= budget
    ensures r < |files| ==> files[r].cost > budget
    decreases |files| - from
  {
    if from < |files| && files[from].cost <= budget then FittingPrefix(files, budget, from + 1) else from
  }

  function Plan<T>(files: seq<Entry<T>>, budget: int, grouped: bool): PlanResult<Entry<T>> {
    var fit := FittingPrefix(files, budget, 0);
    if budget > 0 && fit < |files| then TooLarge(files[fit], budget)
    else
      var st := Run(files, budget, grouped, |files|);
      Planned(st.parts + [st.cur])
  }

  // ----- Files as entries -----------------------------------------------------------

  function Entries(files: seq<FileMeta>, entryGroup: FileMeta -> string): (r: seq<Entry<FileMeta>>)
    ensures |r| == |files|
    ensures forall i :: 0 <= i < |r| ==> r[i] == Entry(files[i], SpanCost(files[i]), entryGroup(files[i]))
  {
    seq(|files|, i requires 0 <= i < |files| => Entry(files[i], SpanCost(files[i]), entryGroup(files[i])))
  }

  function Items<T>(part: seq<Entry<T>>): (r: seq<T>)
    ensures |r| == |part| && forall i :: 0 <= i < |r| ==> r[i] == part[i].item
  {
    seq(|part|, i requires 0 <= i < |part| => part[i].item)
  }

  function ItemParts<T>(parts: seq<seq<Entry<T>>>): (r: seq<seq<T>>)
    ensures |r| == |parts| && forall j :: 0 <= j < |r| ==> r[j] == Items(parts[j])
  {
    seq(|parts|, j requires 0 <= j < |parts| => Items(parts[j]))
  }

  function ItemResult<T>(r: PlanResult<Entry<T>>): PlanResult<T> {
    match r
    case Planned(parts) => Planned(ItemParts(parts))
    case TooLarge(e, capacity) => TooLarge(e.item, capacity)
  }

  // The group of a file, as the planner forms its keys.
  function Grouper(roots: seq<string>, depth: int): FileMeta -> string {
    fm => Grouping.EntryGroup(fm, roots, depth)
  }

  /** The plan of a session: its files, grouped below the roots of the job. */
  function FilePlan(files: seq<FileMeta>, budget: int, roots: seq<string>, depth: int): PlanResult<FileMeta> {
    ItemResult(Plan(Entries(files, Grouper(roots, depth)), budget, budget > 0 && depth > 0))
  }

  // ----- The planner as the source runs it ------------------------------------------

  class SpanState {
    var parts: seq<seq<Entry<FileMeta>>>
    var cur: seq<Entry<FileMeta>>
    var used: int
    var curKey: string
    var groupStart: int

    function View(): State<FileMeta>
      reads this
    {
      State(parts, cur, used, curKey, groupStart)
    }

    constructor ()
      ensures View() == Initial()
    {
      parts, cur, used, curKey, groupStart := [], [], 0, "", -1;
    }

    method Push(e: Entry<FileMeta>, grouped: bool)
      requires View().Valid()
      modifies this
      ensures View() == Pushed(old(View()), e, grouped)
    {
      cur := cur + [e];
      used := used + e.cost;
      if grouped && (groupStart < 0 || e.key != curKey) {
        curKey, groupStart := e.key, |cur| - 1;
      }
    }

    method Cut()
      modifies this
      ensures View() == CutOff(old(View()))
    {
      parts := parts + [cur];
      cur := [];
      used := 0;
      groupStart := -1;
    }

    method RollbackGroup(e: Entry<FileMeta>)
      requires View().Valid() && groupStart >= 0
      modifies this
      ensures View() == RolledBack(old(View()), e)
    {
      var head := cur[..groupStart];
      if |head| > 0 {
        parts := parts + [head];
      }
      var moved := cur[groupStart..];
      moved := moved + [e];
      cur := moved;
      used := SpanTotal(moved);
      curKey, groupStart := e.key, 0;
    }
  }

  method SpanTotal(part: seq<Entry<FileMeta>>) returns (total: int)
    ensures total == Total(part)
  {
    total := 0;
    for i := 0 to |part|
      invariant total == Total(part[..i])
    {
      total := total + part[i].cost;
      assert part[..i + 1][..i] == part[..i];
    }
    assert part[..|part|] == part;
  }

  lemma EntriesSnoc(files: seq<FileMeta>, i: nat, roots: seq<string>, depth: int)
    requires i < |files|
    ensures Entries(files[..i + 1], Grouper(roots, depth)) ==
            Entries(files[..i], Grouper(roots, depth))
            + [Entry(files[i], SpanCost(files[i]), Grouping.EntryGroup(files[i], roots, depth))]
  {
    hide SpanCost, Grouping.EntryGroup;
  }

  lemma NoTotal<T>()
    ensures forall k :: GroupTotal<T>([], k) == 0
  {
  }

  lemma GroupTotalSnoc<T>(files: seq<Entry<T>>, e: Entry<T>, key: string)
    ensures GroupTotal(files + [e], key) == GroupTotal(files, key) + if e.key == key then e.cost else 0
  {
    assert (files + [e])[..|files|] == files;
  }

  method GroupStats(files: seq<FileMeta>, roots: seq<string>, depth: int, grouped: bool)
    returns (entries: seq<Entry<FileMeta>>, totals: map<string, int>)
    ensures entries == Entries(files, Grouper(roots, depth))
    ensures grouped ==> forall i :: 0 <= i < |entries| ==>
      entries[i].key in totals && totals[entries[i].key] == GroupTotal(entries, entries[i].key)
  {
    hide Grouping.EntryGroup, Entries, GroupTotal, SpanCost;
    assert files[..0] == [] && Entries([], Grouper(roots, depth)) == [];
    assert forall k :: GroupTotal<FileMeta>([], k) == 0 by { NoTotal<FileMeta>(); }
    entries, totals := [], map[];
    for i := 0 to |files|
      invariant entries == Entries(files[..i], Grouper(roots, depth))
      invariant grouped ==> forall j :: 0 <= j < i ==> entries[j].key in totals
      invariant grouped ==> forall k :: k in totals ==> totals[k] == GroupTotal(entries, k)
      invariant grouped ==> forall k :: k !in totals ==> GroupTotal(entries, k) == 0
    {
      var e := Entry(files[i], SpanCost(files[i]), Grouping.EntryGroup(files[i], roots, depth));
      EntriesSnoc(files, i, roots, depth);
      forall k
        ensures GroupTotal(entries + [e], k) == GroupTotal(entries, k) + if e.key == k then e.cost else 0
      {
        GroupTotalSnoc(entries, e, k);
      }
      entries := entries + [e];
      if grouped {
        totals := totals[e.key := (if e.key in totals then totals[e.key] else 0) + e.cost];
      }
    }
    assert files[..|files|] == files;
  }

  // One turn of the planning loop for an entry that fits the budget on its own.
  method PlaceEntry(st: SpanState, e: Entry<FileMeta>, budget: int, grouped: bool, totals: map<string, int>)
    requires st.View().Valid()
    requires grouped ==> e.key in totals
    modifies st
    ensures st.View() == Step(old(st.View()), e, if grouped then totals[e.key] else 0, budget, grouped)
  {
    if budget > 0 && e.cost > budget - st.used {
      if grouped && e.key == st.curKey && st.groupStart >= 0 && totals[e.key] <= budget {
        st.RollbackGroup(e);
        return;
      }
      st.Cut();
    }
    st.Push(e, grouped);
  }

  lemma FirstTooLarge<T>(files: seq<Entry<T>>, budget: int, from: nat, i: nat)
    requires from <= i < |files|
    requires forall j :: from <= j < i ==> files[j].cost <= budget
    requires files[i].cost > budget
    ensures FittingPrefix(files, budget, from) == i
  {
  }

  lemma RunStarts<T>(files: seq<Entry<T>>, budget: int, grouped: bool)
    ensures Run(files, budget, grouped, 0) == Initial()
  {
  }

  // Without groups the totals do not matter.
  lemma RunGoesOn<T>(files: seq<Entry<T>>, budget: int, grouped: bool, n: nat, total: int)
    requires n < |files| && (grouped ==> total == GroupTotal(files, files[n].key))
    ensures Run(files, budget, grouped, n + 1) == Step(Run(files, budget, grouped, n), files[n], total, budget, grouped)
  {
    hide RolledBack, CutOff, GroupTotal;
  }

  /** Cuts the files of a session into parts; the result is that of `Plan`. */
  method PlanSpan(files: seq<FileMeta>, budget: int, roots: seq<string>, depth: int)
    returns (r: PlanResult<FileMeta>)
    ensures r == FilePlan(files, budget, roots, depth)
  {
    hide Grouping.EntryGroup, GroupTotal, Grouper, Step, Run, SpanCost;
    RunStarts(Entries(files, Grouper(roots, depth)), budget, budget > 0 && depth > 0);
    var grouped := budget > 0 && depth > 0;
    var entries, totals := GroupStats(files, roots, depth, grouped);
    var st := new SpanState();
    for i := 0 to |entries|
      invariant st.View() == Run(entries, budget, grouped, i)
      invariant budget > 0 ==> forall j :: 0 <= j < i ==> entries[j].cost <= budget
    {
      if budget > 0 && entries[i].cost > budget {
        FirstTooLarge(entries, budget, 0, i);
        return TooLarge(files[i], budget);
      }
      PlaceEntry(st, entries[i], budget, grouped, totals);
      RunGoesOn(entries, budget, grouped, i, if grouped then totals[entries[i].key] else 0);
    }
    r := Planned(ItemParts(st.parts + [st.cur]));
  }
}
