/** What the part planner guarantees: order-preserving parts within the budget, the
    smallest possible number of parts, and groups that are not torn apart. */
module SpanPlannerTheorems {
  import opened Domain
  import opened SpanPlanner

  // ----- Sums and flattening --------------------------------------------------------

  lemma {:induction false} TotalConcat<T>(a: seq<Entry<T>>, b: seq<Entry<T>>)
    ensures Total(a + b) == Total(a) + Total(b)
  {
    if b == [] {
      assert a + b == a;
    } else {
      var n := |b| - 1;
      assert (a + b)[..|a + b| - 1] == a + b[..n];
      TotalConcat(a, b[..n]);
    }
  }

  lemma {:induction false} TotalNonNegative<T>(a: seq<Entry<T>>)
    requires NonNegative(a)
    ensures 0 <= Total(a)
  {
    if a != [] {
      TotalNonNegative(a[..|a| - 1]);
    }
  }

  lemma {:induction false} FlattenConcat<T>(a: seq<seq<T>>, b: seq<seq<T>>)
    ensures Flatten(a + b) == Flatten(a) + Flatten(b)
  {
    if b == [] {
      assert a + b == a;
    } else {
      var n := |b| - 1;
      assert (a + b)[..|a + b| - 1] == a + b[..n];
      FlattenConcat(a, b[..n]);
    }
  }

  lemma FlattenSnoc<T>(a: seq<seq<Entry<T>>>, p: seq<Entry<T>>)
    ensures Flatten(a + [p]) == Flatten(a) + p
  {
    assert (a + [p])[..|a|] == a;
  }

  ghost predicate StandsAt<T>(s: seq<T>, files: seq<T>, lo: nat) {
    lo + |s| <= |files| && files[lo..lo + |s|] == s
  }

  lemma StandsAtIndex<T>(s: seq<T>, files: seq<T>, lo: nat, i: nat)
    requires StandsAt(s, files, lo) && i < |s|
    ensures files[lo + i] == s[i]
  {
    assert files[lo + i] == files[lo..lo + |s|][i];
  }

  lemma PrefixStandsAt<T>(s: seq<T>, files: seq<T>, lo: nat, h: nat)
    requires StandsAt(s, files, lo) && h <= |s|
    ensures StandsAt(s[..h], files, lo)
  {
    assert files[lo..lo + |s|][..h] == files[lo..lo + h];
  }

  lemma TotalSnoc<T>(s: seq<Entry<T>>, e: Entry<T>)
    ensures Total(s + [e]) == Total(s) + e.cost
  {
    assert (s + [e])[..|s|] == s;
  }

  lemma SnocStandsAt<T>(s: seq<T>, files: seq<T>, lo: nat)
    requires StandsAt(s, files, lo) && lo + |s| < |files|
    ensures StandsAt(s + [files[lo + |s|]], files, lo)
  {
    var hi := lo + |s|;
    assert files[lo..hi + 1] == files[lo..hi] + [files[hi]];
  }

  ghost predicate OneKey<T>(s: seq<Entry<T>>, key: string) {
    forall i :: 0 <= i < |s| ==> s[i].key == key
  }

  /** A stretch of entries of one group never costs more than the whole group. */
  lemma {:induction false} StretchWithinGroup<T>(files: seq<Entry<T>>, s: seq<Entry<T>>, lo: nat, key: string)
    requires NonNegative(files)
    requires StandsAt(s, files, lo) && OneKey(s, key)
    ensures Total(s) <= GroupTotal(files, key)
  {
    if files == [] {
      assert s == [];
      return;
    }
    var n := |files| - 1;
    var front := files[..n];
    if s == [] {
      assert front[0..0] == s;
      StretchWithinGroup(front, s, 0, key);
    } else if lo + |s| <= n {
      assert front[lo..lo + |s|] == files[lo..lo + |s|];
      StretchWithinGroup(front, s, lo, key);
    } else {
      var s' := s[..|s| - 1];
      PrefixStandsAt(s, files, lo, |s| - 1);
      assert front[lo..lo + |s'|] == files[lo..lo + |s'|];
      StretchWithinGroup(front, s', lo, key);
      StandsAtIndex(s, files, lo, |s| - 1);
    }
  }

  lemma StretchNonNegative<T>(files: seq<Entry<T>>, s: seq<Entry<T>>, lo: nat)
    requires NonNegative(files) && StandsAt(s, files, lo)
    ensures 0 <= Total(s)
  {
    forall i | 0 <= i < |s|
      ensures 0 <= s[i].cost
    {
      StandsAtIndex(s, files, lo, i);
    }
    TotalNonNegative(s);
  }

  // ----- The invariant of the planning loop -----------------------------------------

  ghost predicate Boundary<T>(parts: seq<seq<Entry<T>>>, j: nat, files: seq<Entry<T>>, budget: int)
    requires j <= |parts|
  {
    var b := |Flatten(parts[..j])|;
    0 < b < |files| && (files[b - 1].key != files[b].key || GroupTotal(files, files[b].key) > budget)
  }

  // The tail of the open part, from groupStart on, is a stretch of one group that
  // began in this part.
  ghost predicate TailIsGroup<T>(st: State<T>) {
    && 0 <= st.groupStart < |st.cur|
    && (forall i :: st.groupStart <= i < |st.cur| ==> st.cur[i].key == st.curKey)
    && (st.groupStart > 0 ==> st.cur[st.groupStart - 1].key != st.curKey)
  }

  ghost predicate Packed<T>(parts: seq<seq<Entry<T>>>, budget: int) {
    forall j :: 0 <= j < |parts| ==> parts[j] != [] && Total(parts[j]) <= budget
  }

  ghost predicate Inv<T>(files: seq<Entry<T>>, budget: int, grouped: bool, n: nat, st: State<T>)
    requires n <= |files|
  {
    && st.Valid()
    && Flatten(st.parts) + st.cur == files[..n]
    && st.used == Total(st.cur)
    && (n == 0 ==> st == Initial())
    && (n > 0 ==> st.cur != [])
    && (budget <= 0 ==> st.parts == [])
    && (budget > 0 ==> st.used <= budget && Packed(st.parts, budget))
    && (grouped && n > 0 ==> TailIsGroup(st))
  }

  // Every boundary between parts that lies before entry n falls at a group edge or
  // inside a group too large for the budget.
  ghost predicate CleanCuts<T>(files: seq<Entry<T>>, budget: int, n: nat, parts: seq<seq<Entry<T>>>)
    requires n <= |files|
  {
    forall j :: 0 < j <= |parts| && |Flatten(parts[..j])| < n ==> Boundary(parts, j, files, budget)
  }

  // Closing the parts `head` at a group edge keeps every earlier boundary.
  lemma BoundariesGrow<T>(files: seq<Entry<T>>, budget: int, n: nat, parts: seq<seq<Entry<T>>>, head: seq<Entry<T>>)
    requires n < |files| && head != []
    requires |Flatten(parts + [head])| <= n
    requires CleanCuts(files, budget, n, parts)
    requires var b := |Flatten(parts + [head])|;
      files[b - 1].key != files[b].key || GroupTotal(files, files[b].key) > budget
    ensures CleanCuts(files, budget, n + 1, parts + [head])
  {
    hide Flatten, GroupTotal;
    FlattenSnoc(parts, head);
    FlattenPrefixes(parts);
    var ps := parts + [head];
    forall j | 0 < j <= |ps| && |Flatten(ps[..j])| < n + 1
      ensures Boundary(ps, j, files, budget)
    {
      if j == |ps| {
        assert ps[..j] == ps;
      } else {
        assert ps[..j] == parts[..j];
        assert |Flatten(parts[..j])| < n;
        assert Boundary(parts, j, files, budget);
      }
    }
  }

  lemma FlattenPrefixes<T>(parts: seq<seq<Entry<T>>>)
    ensures forall j :: 0 <= j <= |parts| ==> |Flatten(parts[..j])| <= |Flatten(parts)|
  {
    forall j | 0 <= j <= |parts|
      ensures |Flatten(parts[..j])| <= |Flatten(parts)|
    {
      FlattenConcat(parts[..j], parts[j..]);
      assert parts[..j] + parts[j..] == parts;
    }
  }

  lemma PushKeepsInv<T>(files: seq<Entry<T>>, budget: int, grouped: bool, n: nat, st: State<T>)
    requires n < |files|
    requires Inv(files, budget, grouped, n, st)
    requires budget > 0 ==> files[n].cost <= budget - st.used
    ensures Inv(files, budget, grouped, n + 1, Pushed(st, files[n], grouped))
  {
    hide GroupTotal, Flatten, Total, Packed;
    var r := Pushed(st, files[n], grouped);
    TotalSnoc(st.cur, files[n]);
    assert files[..n + 1] == files[..n] + [files[n]];
    assert Flatten(r.parts) + r.cur == files[..n + 1];
  }

  lemma CutKeepsInv<T>(files: seq<Entry<T>>, budget: int, grouped: bool, n: nat, st: State<T>)
    requires n < |files| && 0 < budget
    requires Inv(files, budget, grouped, n, st)
    requires 0 <= files[n].cost <= budget && files[n].cost > budget - st.used
    ensures n > 0
    ensures Inv(files, budget, grouped, n + 1, Pushed(CutOff(st), files[n], grouped))
  {
    var r := Pushed(CutOff(st), files[n], grouped);
    assert n > 0;
    assert r.cur == [files[n]];
    assert r.cur[..0] == [];
    FlattenSnoc(st.parts, st.cur);
    assert files[..n + 1] == files[..n] + [files[n]];
  }

  lemma ExtendedStretch<T>(files: seq<Entry<T>>, tail: seq<Entry<T>>, lo: nat, key: string)
    requires StandsAt(tail, files, lo) && lo + |tail| < |files| && NonNegative(files)
    requires OneKey(tail, key) && files[lo + |tail|].key == key
    ensures Total(tail) + files[lo + |tail|].cost <= GroupTotal(files, key)
  {
    var e := files[lo + |tail|];
    SnocStandsAt(tail, files, lo);
    StretchWithinGroup(files, tail + [e], lo, key);
    TotalSnoc(tail, e);
  }

  // A group that fits is only ever rolled back out of a part that holds something else.
  lemma MovedGroupFits<T>(files: seq<Entry<T>>, budget: int, head: seq<Entry<T>>, tail: seq<Entry<T>>, lo: nat,
                          e: Entry<T>)
    requires StandsAt(tail, files, lo) && lo + |tail| < |files| && NonNegative(files)
    requires e == files[lo + |tail|] && OneKey(tail, e.key)
    requires GroupTotal(files, e.key) <= budget < Total(head + tail) + e.cost
    ensures head != []
    ensures Total(tail + [e]) <= budget
    ensures Total(head) <= Total(head + tail)
  {
    ExtendedStretch(files, tail, lo, e.key);
    TotalSnoc(tail, e);
    StretchNonNegative(files, tail, lo);
    TotalConcat(head, tail);
  }

  lemma CurIsStretch<T>(files: seq<Entry<T>>, budget: int, n: nat, st: State<T>)
    requires n <= |files|
    requires Inv(files, budget, true, n, st)
    ensures |st.cur| <= n && StandsAt(st.cur, files, n - |st.cur|)
    ensures |Flatten(st.parts)| == n - |st.cur|
  {
    var f := Flatten(st.parts);
    assert st.cur == (f + st.cur)[|f|..];
    assert files[..n][n - |st.cur|..] == files[n - |st.cur|..n];
  }

  ghost predicate RollsBack<T>(files: seq<Entry<T>>, budget: int, n: nat, st: State<T>)
    requires n < |files|
  {
    && files[n].cost > budget - st.used
    && st.groupStart >= 0
    && files[n].key == st.curKey
    && GroupTotal(files, files[n].key) <= budget
  }

  lemma RollbackSplits<T>(files: seq<Entry<T>>, budget: int, n: nat, st: State<T>)
    requires 0 < n < |files| && 0 < budget
    requires NonNegative(files)
    requires Inv(files, budget, true, n, st)
    requires RollsBack(files, budget, n, st)
    ensures 0 < st.groupStart < |st.cur|
    ensures Total(st.cur[..st.groupStart]) <= budget
    ensures Total(st.cur[st.groupStart..] + [files[n]]) <= budget
  {
    hide Flatten, Total, GroupTotal;
    CurIsStretch(files, budget, n, st);
    var head, tail := st.cur[..st.groupStart], st.cur[st.groupStart..];
    assert st.cur == head + tail;
    var lo := n - |tail|;
    assert files[n - |st.cur|..n][st.groupStart..] == files[lo..n];
    MovedGroupFits(files, budget, head, tail, lo, files[n]);
  }

  lemma RollbackKeepsInv<T>(files: seq<Entry<T>>, budget: int, n: nat, st: State<T>)
    requires 0 < n < |files| && 0 < budget
    requires NonNegative(files)
    requires Inv(files, budget, true, n, st)
    requires RollsBack(files, budget, n, st)
    ensures Inv(files, budget, true, n + 1, RolledBack(st, files[n]))
  {
    hide Flatten, Total, GroupTotal;
    RollbackSplits(files, budget, n, st);
    var head, tail := st.cur[..st.groupStart], st.cur[st.groupStart..];
    var r := RolledBack(st, files[n]);
    assert head != [];
    assert r.parts == st.parts + [head];
    FlattenSnoc(st.parts, head);
    calc {
      Flatten(r.parts) + r.cur;
      Flatten(st.parts) + head + (tail + [files[n]]);
      { assert st.cur == head + tail; }
      Flatten(st.parts) + st.cur + [files[n]];
      files[..n + 1];
    }
  }

  lemma StepKeepsInv<T>(files: seq<Entry<T>>, budget: int, grouped: bool, n: nat, st: State<T>)
    requires n < |files|
    requires NonNegative(files)
    requires budget > 0 ==> files[n].cost <= budget
    requires grouped ==> budget > 0
    requires Inv(files, budget, grouped, n, st)
    ensures Inv(files, budget, grouped, n + 1,
                Step(st, files[n], GroupTotal(files, files[n].key), budget, grouped))
  {
    if !(budget > 0 && files[n].cost > budget - st.used) {
      PushKeepsInv(files, budget, grouped, n, st);
    } else if grouped && RollsBack(files, budget, n, st) {
      RollbackKeepsInv(files, budget, n, st);
    } else {
      CutKeepsInv(files, budget, grouped, n, st);
    }
  }

  lemma NothingYet<T>()
    ensures Flatten<Entry<T>>([]) == [] && Total<T>([]) == 0
  {
  }

  lemma {:induction false} RunInv<T>(files: seq<Entry<T>>, budget: int, grouped: bool, n: nat)
    requires n <= |files|
    requires NonNegative(files)
    requires budget > 0 ==> forall i :: 0 <= i < |files| ==> files[i].cost <= budget
    requires grouped ==> budget > 0
    ensures Inv(files, budget, grouped, n, Run(files, budget, grouped, n))
  {
    hide Total, Flatten, GroupTotal, Step;
    assert Flatten<Entry<T>>([]) == [] && Total<T>([]) == 0 by { NothingYet<T>(); }
    if n == 0 {
      assert files[..0] == [];
    } else {
      RunInv(files, budget, grouped, n - 1);
      StepKeepsInv(files, budget, grouped, n - 1, Run(files, budget, grouped, n - 1));
    }
  }

  // Closing the first `split` entries of the open part is clean if a group ends there.
  lemma ClosingIsClean<T>(files: seq<Entry<T>>, budget: int, n: nat, st: State<T>, split: nat)
    requires n < |files| && 0 < split <= |st.cur|
    requires Inv(files, budget, true, n, st)
    requires CleanCuts(files, budget, n, st.parts)
    requires var b := n - |st.cur| + split;
      |st.cur| <= n && (st.cur[split - 1].key != files[b].key || GroupTotal(files, files[b].key) > budget)
    ensures CleanCuts(files, budget, n + 1, st.parts + [st.cur[..split]])
  {
    hide Flatten, Total, GroupTotal;
    CurIsStretch(files, budget, n, st);
    FlattenSnoc(st.parts, st.cur[..split]);
    StandsAtIndex(st.cur, files, n - |st.cur|, split - 1);
    BoundariesGrow(files, budget, n, st.parts, st.cur[..split]);
  }

  lemma PushingIsClean<T>(files: seq<Entry<T>>, budget: int, n: nat, st: State<T>)
    requires n < |files|
    requires Inv(files, budget, true, n, st)
    requires CleanCuts(files, budget, n, st.parts)
    ensures CleanCuts(files, budget, n + 1, st.parts)
  {
    CurIsStretch(files, budget, n, st);
    FlattenPrefixes(st.parts);
  }

  lemma RollingBackIsClean<T>(files: seq<Entry<T>>, budget: int, n: nat, st: State<T>)
    requires 0 < n < |files| && budget > 0
    requires NonNegative(files)
    requires Inv(files, budget, true, n, st)
    requires CleanCuts(files, budget, n, st.parts)
    requires RollsBack(files, budget, n, st)
    ensures CleanCuts(files, budget, n + 1, RolledBack(st, files[n]).parts)
  {
    CurIsStretch(files, budget, n, st);
    RollbackSplits(files, budget, n, st);
    StandsAtIndex(st.cur, files, n - |st.cur|, st.groupStart);
    ClosingIsClean(files, budget, n, st, st.groupStart);
  }

  lemma CuttingIsClean<T>(files: seq<Entry<T>>, budget: int, n: nat, st: State<T>)
    requires 0 < n < |files|
    requires Inv(files, budget, true, n, st)
    requires CleanCuts(files, budget, n, st.parts)
    requires files[n].key != st.curKey || GroupTotal(files, files[n].key) > budget
    ensures CleanCuts(files, budget, n + 1, CutOff(st).parts)
  {
    CurIsStretch(files, budget, n, st);
    assert st.cur[..|st.cur|] == st.cur;
    ClosingIsClean(files, budget, n, st, |st.cur|);
  }

  lemma StepCutsCleanly<T>(files: seq<Entry<T>>, budget: int, n: nat, st: State<T>)
    requires n < |files| && budget > 0
    requires NonNegative(files)
    requires files[n].cost <= budget
    requires Inv(files, budget, true, n, st)
    requires CleanCuts(files, budget, n, st.parts)
    ensures CleanCuts(files, budget, n + 1, Step(st, files[n], GroupTotal(files, files[n].key), budget, true).parts)
  {
    if files[n].cost <= budget - st.used {
      PushingIsClean(files, budget, n, st);
    } else if RollsBack(files, budget, n, st) {
      RollingBackIsClean(files, budget, n, st);
    } else {
      CuttingIsClean(files, budget, n, st);
    }
  }

  lemma {:induction false} RunCutsCleanly<T>(files: seq<Entry<T>>, budget: int, n: nat)
    requires n <= |files| && budget > 0
    requires NonNegative(files)
    requires forall i :: 0 <= i < |files| ==> files[i].cost <= budget
    ensures CleanCuts(files, budget, n, Run(files, budget, true, n).parts)
  {
    hide Total, Flatten, GroupTotal, Step, Inv, NonNegative, Boundary;
    if n > 0 {
      RunCutsCleanly(files, budget, n - 1);
      RunInv(files, budget, true, n - 1);
      StepCutsCleanly(files, budget, n - 1, Run(files, budget, true, n - 1));
    }
  }

  // ----- Main results ---------------------------------------------------------------

  /** Planning fails exactly when a single entry exceeds the budget, and names such an
      entry. */
  lemma PlanFailsExactly<T>(files: seq<Entry<T>>, budget: int, grouped: bool)
    ensures var r := Plan(files, budget, grouped);
      && (r.TooLarge? <==> budget > 0 && exists i :: 0 <= i < |files| && files[i].cost > budget)
      && (r.TooLarge? ==> r.item in files && r.item.cost > budget && r.capacity == budget)
  {
    var fit := FittingPrefix(files, budget, 0);
  }

  /** A plan keeps the scanner's order and loses nothing; without a budget there is one
      part. */
  lemma PlanKeepsOrder<T>(files: seq<Entry<T>>, budget: int, grouped: bool)
    requires NonNegative(files)
    requires grouped ==> budget > 0
    requires Plan(files, budget, grouped).Planned?
    ensures var parts := Plan(files, budget, grouped).parts;
      Flatten(parts) == files && parts != [] && (budget <= 0 ==> parts == [files])
  {
    PlanFailsExactly(files, budget, grouped);
    var n := |files|;
    RunInv(files, budget, grouped, n);
    var st := Run(files, budget, grouped, n);
    FlattenSnoc(st.parts, st.cur);
    assert files[..n] == files;
    if budget <= 0 {
      assert st.cur == Flatten(st.parts) + st.cur;
    }
  }

  /** Every part of a plan stays within the budget, and none is empty unless the session
      is. */
  lemma PlanFillsParts<T>(files: seq<Entry<T>>, budget: int, grouped: bool, j: nat)
    requires NonNegative(files) && budget > 0
    requires Plan(files, budget, grouped).Planned?
    requires j < |Plan(files, budget, grouped).parts|
    ensures Total(Plan(files, budget, grouped).parts[j]) <= budget
    ensures files != [] ==> Plan(files, budget, grouped).parts[j] != []
  {
    PlanFailsExactly(files, budget, grouped);
    RunInv(files, budget, grouped, |files|);
  }

  /** Grouped planning tears no group apart that fits a cartridge: between two parts the
      group changes, or it is larger than the budget. */
  lemma GroupsStayTogether<T>(files: seq<Entry<T>>, budget: int, j: nat)
    requires NonNegative(files) && budget > 0
    requires Plan(files, budget, true).Planned?
    requires 0 < j < |Plan(files, budget, true).parts|
    ensures Boundary(Plan(files, budget, true).parts, j, files, budget)
  {
    PlanFailsExactly(files, budget, true);
    var n := |files|;
    RunInv(files, budget, true, n);
    RunCutsCleanly(files, budget, n);
    var st := Run(files, budget, true, n);
    assert (st.parts + [st.cur])[..j] == st.parts[..j];
    FlattenPrefixes(st.parts);
    CurIsStretch(files, budget, n, st);
    assert Boundary(st.parts, j, files, budget);
  }

  lemma {:induction false} TotalWithin<T>(files: seq<Entry<T>>, n: nat, parts: seq<seq<Entry<T>>>, j: nat)
    requires n <= |files| && NonNegative(files)
    requires Flatten(parts) == files[..n] && j < |parts|
    ensures NonNegative(parts[j])
  {
    var m := |parts| - 1;
    var rest := parts[..m];
    assert Flatten(parts) == Flatten(rest) + parts[m];
    if j == m {
      forall i | 0 <= i < |parts[j]|
        ensures 0 <= parts[j][i].cost
      {
        assert parts[j][i] == files[|Flatten(rest)| + i];
      }
    } else {
      assert Flatten(rest) == files[..|Flatten(rest)|];
      TotalWithin(files, |Flatten(rest)|, rest, j);
    }
  }

  /** The greedy planner stays ahead: against any other way of cutting the first n
      entries into parts within the budget, it has opened fewer parts, or as many with
      no more in the last one. */
  lemma {:induction false} GreedyStaysAhead<T>(files: seq<Entry<T>>, budget: int, n: nat, other: seq<seq<Entry<T>>>)
    requires n <= |files| && 0 < budget
    requires NonNegative(files)
    requires forall i :: 0 <= i < |files| ==> files[i].cost <= budget
    requires other != [] && Flatten(other) == files[..n]
    requires forall j :: 0 <= j < |other| ==> Total(other[j]) <= budget
    ensures var st := Run(files, budget, false, n);
      || |st.parts| + 1 < |other|
      || (|st.parts| + 1 == |other| && st.used <= Total(other[|other| - 1]))
    decreases n, |other|
  {
    var m := |other| - 1;
    var rest, last := other[..m], other[m];
    assert Flatten(other) == Flatten(rest) + last;
    TotalWithin(files, n, other, m);
    TotalNonNegative(last);
    if n == 0 {
    } else if last == [] {
      GreedyStaysAhead(files, budget, n, rest);
    } else {
      var last' := last[..|last| - 1];
      var other' := rest + [last'];
      assert other'[..m] == rest && other'[m] == last';
      FlattenSnoc(rest, last');
      assert Flatten(other') == files[..n - 1];
      assert last[|last| - 1] == Flatten(other)[n - 1] == files[n - 1];
      assert Total(last) == Total(last') + files[n - 1].cost;
      TotalNonNegative(last');
      GreedyStaysAhead(files, budget, n - 1, other');
    }
  }

  /** Without grouping the plan has the smallest number of parts possible. */
  lemma PlanIsOptimal<T>(files: seq<Entry<T>>, budget: int, other: seq<seq<Entry<T>>>)
    requires 0 < budget
    requires NonNegative(files)
    requires other != [] && Flatten(other) == files
    requires forall j :: 0 <= j < |other| ==> Total(other[j]) <= budget
    ensures var r := Plan(files, budget, false);
      r.Planned? && |r.parts| <= |other|
  {
    EntriesFit(files, budget, other);
    assert files[..|files|] == files;
    GreedyStaysAhead(files, budget, |files|, other);
  }

  // No entry costs more than the stretch it lies in.
  lemma EntryWithinTotal<T>(part: seq<Entry<T>>, k: nat)
    requires NonNegative(part) && k < |part|
    ensures part[k].cost <= Total(part)
  {
    hide Total;
    assert part == part[..k + 1] + part[k + 1..];
    TotalConcat(part[..k + 1], part[k + 1..]);
    assert part[..k + 1] == part[..k] + [part[k]];
    TotalSnoc(part[..k], part[k]);
    TotalNonNegative(part[..k]);
    TotalNonNegative(part[k + 1..]);
  }

  lemma {:induction false} EntriesFit<T>(files: seq<Entry<T>>, budget: int, parts: seq<seq<Entry<T>>>)
    requires NonNegative(files)
    requires Flatten(parts) == files
    requires forall j :: 0 <= j < |parts| ==> Total(parts[j]) <= budget
    ensures forall i :: 0 <= i < |files| ==> files[i].cost <= budget
    decreases |parts|
  {
    hide Total;
    if parts == [] {
      return;
    }
    var m := |parts| - 1;
    var front, last := Flatten(parts[..m]), parts[m];
    assert front == files[..|front|] && last == files[|front|..];
    EntriesFit(front, budget, parts[..m]);
    forall i | 0 <= i < |files|
      ensures files[i].cost <= budget
    {
      if i < |front| {
        assert files[i] == front[i];
      } else {
        assert files[i] == last[i - |front|];
        EntryWithinTotal(last, i - |front|);
      }
    }
  }

  // ----- Grouped planning is planning of whole groups ---------------------------------

  // A maximal stretch of one group, seen as a single item.
  function Whole<T>(run: seq<Entry<T>>): Entry<seq<Entry<T>>> {
    Entry(run, Total(run), "")
  }

  function Wholes<T>(runs: seq<seq<Entry<T>>>): (r: seq<Entry<seq<Entry<T>>>>)
    ensures |r| == |runs| && forall i :: 0 <= i < |r| ==> r[i] == Whole(runs[i])
  {
    seq(|runs|, i requires 0 <= i < |runs| => Whole(runs[i]))
  }

  function Unpack<T>(part: seq<Entry<seq<Entry<T>>>>): seq<Entry<T>> {
    Flatten(Items(part))
  }

  function UnpackAll<T>(parts: seq<seq<Entry<seq<Entry<T>>>>>): (r: seq<seq<Entry<T>>>)
    ensures |r| == |parts| && forall j :: 0 <= j < |r| ==> r[j] == Unpack(parts[j])
  {
    seq(|parts|, j requires 0 <= j < |parts| => Unpack(parts[j]))
  }

  ghost predicate OneGroup<T>(run: seq<Entry<T>>) {
    run != [] && OneKey(run, run[0].key)
  }

  // The maximal stretches of one group, in order.
  ghost predicate GroupRuns<T>(runs: seq<seq<Entry<T>>>) {
    && (forall i :: 0 <= i < |runs| ==> OneGroup(runs[i]))
    && (forall i :: 0 < i < |runs| ==> GroupEdge(runs[i - 1], runs[i]))
  }

  ghost predicate GroupEdge<T>(left: seq<Entry<T>>, right: seq<Entry<T>>) {
    left != [] && right != [] && left[0].key != right[0].key
  }

  lemma UnpackSnoc<T>(part: seq<Entry<seq<Entry<T>>>>, w: Entry<seq<Entry<T>>>)
    ensures Unpack(part + [w]) == Unpack(part) + w.item
  {
    assert Items(part + [w]) == Items(part) + [w.item];
    FlattenSnoc(Items(part), w.item);
  }

  // The accumulator after the stretch `pre` of a new group was taken in from `st`.
  function Taken<T>(st: State<T>, pre: seq<Entry<T>>, budget: int): State<T> {
    if pre == [] then st
    else if st.used + Total(pre) <= budget
    then State(st.parts, st.cur + pre, st.used + Total(pre), pre[0].key, |st.cur|)
    else State(st.parts + [st.cur], pre, Total(pre), pre[0].key, 0)
  }

  lemma TakeOne<T>(st: State<T>, pre: seq<Entry<T>>, e: Entry<T>, groupTotal: int, budget: int)
    requires st.Valid() && 0 <= st.used <= budget && (st.used > 0 ==> st.cur != [])
    requires st.groupStart < 0 || st.curKey != e.key
    requires pre != [] ==> pre[0].key == e.key
    requires 0 <= e.cost && 0 <= Total(pre) && Total(pre + [e]) <= groupTotal <= budget
    requires Taken(st, pre, budget).Valid()
    ensures Step(Taken(st, pre, budget), e, groupTotal, budget, true) == Taken(st, pre + [e], budget)
  {
    hide GroupTotal;
    TotalSnoc(pre, e);
    var t := Taken(st, pre, budget);
    if pre == [] {
      assert st.cur + [e] == st.cur + (pre + [e]);
      assert Total(pre + [e]) == e.cost;
    } else if st.used + Total(pre) <= budget {
      assert t.cur[..t.groupStart] == st.cur && t.cur[t.groupStart..] == pre;
      assert st.cur + pre + [e] == st.cur + (pre + [e]);
    }
  }

  lemma PrefixOfRun<T>(files: seq<Entry<T>>, lo: nat, h: nat, run: seq<Entry<T>>)
    requires h <= |run| && StandsAt(run, files, lo)
    requires OneGroup(run) && NonNegative(files)
    ensures 0 <= Total(run[..h]) <= GroupTotal(files, run[0].key)
    ensures h < |run| ==> files[lo + h] == run[h] && run[..h + 1] == run[..h] + [run[h]]
  {
    PrefixStandsAt(run, files, lo, h);
    StretchNonNegative(files, run[..h], lo);
    StretchWithinGroup(files, run[..h], lo, run[0].key);
    if h < |run| {
      StandsAtIndex(run, files, lo, h);
    }
  }

  lemma {:induction false} TakeRun<T>(files: seq<Entry<T>>, budget: int, lo: nat, h: nat, run: seq<Entry<T>>,
                                      st: State<T>)
    requires h <= |run| && StandsAt(run, files, lo)
    requires OneGroup(run) && NonNegative(files)
    requires GroupTotal(files, run[0].key) <= budget
    requires st.Valid() && 0 <= st.used <= budget && (st.used > 0 ==> st.cur != [])
    requires st.groupStart < 0 || st.curKey != run[0].key
    requires Run(files, budget, true, lo + h) == Taken(st, run[..h], budget)
    ensures Run(files, budget, true, lo + |run|) == Taken(st, run, budget)
    decreases |run| - h
  {
    hide Run, GroupTotal, Total, Taken, Step;
    if h < |run| {
      TakeNext(files, budget, lo, h, run, st);
      NextState(files, budget, true, lo + h);
      TakeRun(files, budget, lo, h + 1, run, st);
    } else {
      assert run[..h] == run;
    }
  }

  lemma NextState<T>(files: seq<Entry<T>>, budget: int, grouped: bool, n: nat)
    requires n < |files|
    ensures Run(files, budget, grouped, n + 1)
         == Step(Run(files, budget, grouped, n), files[n], GroupTotal(files, files[n].key), budget, grouped)
  {
  }

  lemma TakeNext<T>(files: seq<Entry<T>>, budget: int, lo: nat, h: nat, run: seq<Entry<T>>, st: State<T>)
    requires h < |run| && StandsAt(run, files, lo)
    requires OneGroup(run) && NonNegative(files)
    requires GroupTotal(files, run[0].key) <= budget
    requires st.Valid() && 0 <= st.used <= budget && (st.used > 0 ==> st.cur != [])
    requires st.groupStart < 0 || st.curKey != run[0].key
    ensures Taken(st, run[..h], budget).Valid()
    ensures Step(Taken(st, run[..h], budget), files[lo + h], GroupTotal(files, files[lo + h].key), budget, true)
         == Taken(st, run[..h + 1], budget)
  {
    PrefixOfRun(files, lo, h, run);
    PrefixOfRun(files, lo, h + 1, run);
    var pre, e := run[..h], run[h];
    assert pre != [] ==> pre[0] == run[0];
    TakeOne(st, pre, e, GroupTotal(files, e.key), budget);
  }

  // The file-by-file accumulator st stands for the accumulator g over whole groups.
  ghost predicate StandsFor<T>(st: State<T>, g: State<seq<Entry<T>>>, runs: seq<seq<Entry<T>>>, m: nat, budget: int)
    requires m <= |runs|
  {
    && st.parts == UnpackAll(g.parts)
    && st.cur == Unpack(g.cur)
    && 0 <= st.used == g.used <= budget
    && (st.used > 0 ==> st.cur != [])
    && (if m == 0 then st.groupStart < 0 else runs[m - 1] != [] && st.curKey == runs[m - 1][0].key)
  }

  lemma WholeRunStep<T>(st: State<T>, g: State<seq<Entry<T>>>, runs: seq<seq<Entry<T>>>, m: nat, groupTotal: int,
                        budget: int)
    requires m < |runs| && runs[m] != [] && g.Valid()
    requires StandsFor(st, g, runs, m, budget)
    requires 0 <= Total(runs[m]) <= budget
    ensures StandsFor(Taken(st, runs[m], budget), Step(g, Whole(runs[m]), groupTotal, budget, false), runs, m + 1,
                      budget)
  {
    var w := Whole(runs[m]);
    UnpackSnoc(g.cur, w);
    UnpackSnoc([], w);
    assert [] + [w] == [w];
    assert UnpackAll(g.parts + [g.cur]) == UnpackAll(g.parts) + [Unpack(g.cur)];
  }

  lemma RunPosition<T>(runs: seq<seq<Entry<T>>>, m: nat)
    requires m < |runs|
    ensures |Flatten(runs[..m + 1])| == |Flatten(runs[..m])| + |runs[m]| <= |Flatten(runs)|
    ensures StandsAt(runs[m], Flatten(runs), |Flatten(runs[..m])|)
  {
    assert runs[..m + 1] == runs[..m] + [runs[m]];
    FlattenSnoc(runs[..m], runs[m]);
    assert runs == runs[..m + 1] + runs[m + 1..];
    FlattenConcat(runs[..m + 1], runs[m + 1..]);
  }

  ghost predicate AllGroupsFit<T>(files: seq<Entry<T>>, budget: int) {
    forall i :: 0 <= i < |files| ==> GroupTotal(files, files[i].key) <= budget
  }

  lemma EntryWithinGroup<T>(files: seq<Entry<T>>, i: nat)
    requires i < |files| && NonNegative(files)
    ensures files[i].cost <= GroupTotal(files, files[i].key)
  {
    assert files[i..i + 1] == [files[i]] && [files[i]][..0] == [];
    StretchWithinGroup(files, [files[i]], i, files[i].key);
  }

  lemma RunWithinBudget<T>(files: seq<Entry<T>>, budget: int, lo: nat, run: seq<Entry<T>>)
    requires StandsAt(run, files, lo) && OneGroup(run)
    requires NonNegative(files) && AllGroupsFit(files, budget)
    ensures GroupTotal(files, run[0].key) <= budget
    ensures 0 <= Total(run) <= budget
  {
    StandsAtIndex(run, files, lo, 0);
    StretchWithinGroup(files, run, lo, run[0].key);
    StretchNonNegative(files, run, lo);
  }

  lemma NextRun<T>(files: seq<Entry<T>>, runs: seq<seq<Entry<T>>>, budget: int, m: nat, lo: nat,
                   st: State<T>, g: State<seq<Entry<T>>>, groupTotal: int)
    requires m < |runs| && budget > 0 && GroupRuns(runs)
    requires StandsAt(runs[m], files, lo)
    requires NonNegative(files) && AllGroupsFit(files, budget)
    requires st == Run(files, budget, true, lo) && g.Valid()
    requires StandsFor(st, g, runs, m, budget)
    ensures StandsFor(Run(files, budget, true, lo + |runs[m]|), Step(g, Whole(runs[m]), groupTotal, budget, false),
                      runs, m + 1, budget)
  {
    hide GroupTotal, Total, Step, Run, NonNegative, AllGroupsFit;
    RunWithinBudget(files, budget, lo, runs[m]);
    assert m > 0 ==> GroupEdge(runs[m - 1], runs[m]);
    TakeRun(files, budget, lo, 0, runs[m], st);
    WholeRunStep(st, g, runs, m, groupTotal, budget);
  }

  lemma {:induction false} RunsRefine<T>(files: seq<Entry<T>>, runs: seq<seq<Entry<T>>>, budget: int, m: nat, lo: nat)
    requires m <= |runs| && budget > 0 && GroupRuns(runs)
    requires files == Flatten(runs) && lo == |Flatten(runs[..m])| <= |files|
    requires NonNegative(files) && AllGroupsFit(files, budget)
    requires StandsFor(Run(files, budget, true, lo), Run(Wholes(runs), budget, false, m), runs, m, budget)
    ensures StandsFor(Run(files, budget, true, |files|), Run(Wholes(runs), budget, false, |runs|), runs, |runs|, budget)
    decreases |runs| - m
  {
    hide GroupTotal, Total, Step, StandsFor, Flatten, AllGroupsFit, NonNegative, Run, GroupRuns, StandsAt;
    if m < |runs| {
      RunPosition(runs, m);
      NextState(Wholes(runs), budget, false, m);
      var g := Run(Wholes(runs), budget, false, m);
      NextRun(files, runs, budget, m, lo, Run(files, budget, true, lo), g, GroupTotal(Wholes(runs), ""));
      RunsRefine(files, runs, budget, m + 1, lo + |runs[m]|);
    } else {
      assert runs[..m] == runs;
    }
  }

  /** When every group fits a cartridge, the grouped plan is the plain plan of whole
      groups, unpacked. */
  lemma GroupedPlanIsPlanOfGroups<T>(runs: seq<seq<Entry<T>>>, budget: int)
    requires budget > 0 && GroupRuns(runs)
    requires NonNegative(Flatten(runs)) && AllGroupsFit(Flatten(runs), budget)
    ensures var g := Plan(Wholes(runs), budget, false);
      g.Planned? && Plan(Flatten(runs), budget, true) == Planned(UnpackAll(g.parts))
  {
    var n := |runs|;
    forall i | 0 <= i < n
      ensures 0 <= Total(runs[i]) <= budget
    {
      RunPosition(runs, i);
      RunWithinBudget(Flatten(runs), budget, |Flatten(runs[..i])|, runs[i]);
    }
    forall i | 0 <= i < |Flatten(runs)|
      ensures Flatten(runs)[i].cost <= budget
    {
      EntryWithinGroup(Flatten(runs), i);
    }
    assert Items<seq<Entry<T>>>([]) == [];
    RunsRefine(Flatten(runs), runs, budget, 0, 0);
    PlanFailsExactly(Wholes(runs), budget, false);
    PlanFailsExactly(Flatten(runs), budget, true);
    var g := Run(Wholes(runs), budget, false, n);
    assert UnpackAll(g.parts + [g.cur]) == UnpackAll(g.parts) + [Unpack(g.cur)];
  }

  /** So, when every group fits, no plan that keeps groups whole has fewer parts. */
  lemma GroupedPlanIsOptimal<T>(runs: seq<seq<Entry<T>>>, budget: int, other: seq<seq<Entry<seq<Entry<T>>>>>)
    requires budget > 0 && GroupRuns(runs)
    requires NonNegative(Flatten(runs)) && AllGroupsFit(Flatten(runs), budget)
    requires other != [] && Flatten(other) == Wholes(runs)
    requires forall j :: 0 <= j < |other| ==> Total(other[j]) <= budget
    ensures var r := Plan(Flatten(runs), budget, true);
      r.Planned? && |r.parts| <= |other|
  {
    forall i | 0 <= i < |runs|
      ensures 0 <= Total(runs[i])
    {
      RunPosition(runs, i);
      RunWithinBudget(Flatten(runs), budget, |Flatten(runs[..i])|, runs[i]);
    }
    GroupedPlanIsPlanOfGroups(runs, budget);
    PlanIsOptimal(Wholes(runs), budget, other);
  }

  // ----- Plans of files -----------------------------------------------------------------

  lemma {:induction false} ItemsFlatten<T>(parts: seq<seq<Entry<T>>>)
    ensures Flatten(ItemParts(parts)) == SpanPlanner.Items(Flatten(parts))
  {
    if parts != [] {
      var last := |parts| - 1;
      ItemsFlatten(parts[..last]);
      assert ItemParts(parts)[..last] == ItemParts(parts[..last]);
    }
  }

  /** The parts planned for the files of a session, one after the other, are the files as
      scanned. */
  lemma PartsAreTheFiles(files: seq<FileMeta>, budget: int, roots: seq<string>, depth: int)
    requires forall i :: 0 <= i < |files| ==> files[i].size >= 0
    ensures var r := FilePlan(files, budget, roots, depth);
      r.Planned? ==> r.parts != [] && Flatten(r.parts) == files
  {
    hide Plan;
    var entries := Entries(files, Grouper(roots, depth));
    var r := Plan(entries, budget, budget > 0 && depth > 0);
    if r.Planned? {
      PlanKeepsOrder(entries, budget, budget > 0 && depth > 0);
      ItemsFlatten(r.parts);
      assert SpanPlanner.Items(entries) == files;
    }
  }
}
