/** Directory groups for the part planner: clean paths, the longest root a path belongs to,
    and the ancestor at a given depth below it (internal/domain/filter.go,
    internal/domain/span.go). Paths are those of a Unix system. */
module Grouping {
  import opened Domain

  // ----- Segments -------------------------------------------------------------------------

  /** The pieces between slashes; there is at least one. */
  function Split(s: string): (r: seq<string>)
    ensures |r| >= 1
    ensures forall i :: 0 <= i < |r| ==> '/' !in r[i]
  {
    if s == "" then [""]
    else
      var rest := Split(s[1..]);
      if s[0] == '/' then [""] + rest else [[s[0]] + rest[0]] + rest[1..]
  }

  function Join(ss: seq<string>): string {
    if ss == [] then "" else if |ss| == 1 then ss[0] else ss[0] + "/" + Join(ss[1..])
  }

  lemma {:induction false} SplitConcat(x: string, y: string)
    ensures Split(x + "/" + y) == Split(x) + Split(y)
  {
    var s := x + "/" + y;
    if x == "" {
      assert s[1..] == y;
    } else {
      assert s[1..] == x[1..] + "/" + y;
      SplitConcat(x[1..], y);
    }
  }

  lemma {:induction false} SplitOne(s: string)
    requires '/' !in s
    ensures Split(s) == [s]
  {
    if s != "" {
      assert s[0] != '/';
      SplitOne(s[1..]);
      assert s == [s[0]] + s[1..];
    }
  }

  lemma {:induction false} SplitJoin(ss: seq<string>)
    requires ss != [] && forall i :: 0 <= i < |ss| ==> '/' !in ss[i]
    ensures Split(Join(ss)) == ss
  {
    SplitOne(ss[0]);
    if |ss| > 1 {
      SplitConcat(ss[0], Join(ss[1..]));
      SplitJoin(ss[1..]);
    }
  }

  lemma {:induction false} JoinConcat(x: seq<string>, y: seq<string>)
    requires x != [] && y != []
    ensures Join(x + y) == Join(x) + "/" + Join(y)
  {
    if |x| == 1 {
      assert (x + y)[1..] == y;
    } else {
      assert (x + y)[1..] == x[1..] + y;
      JoinConcat(x[1..], y);
    }
  }

  // ----- Clean paths ------------------------------------------------------------------------

  // One more segment of a path: dots vanish, double dots take a segment back.
  function Walked(rooted: bool, out: seq<string>, s: string): seq<string> {
    if s == "" || s == "." then out
    else if s != ".." then out + [s]
    else if out != [] && out[|out| - 1] != ".." then out[..|out| - 1]
    else if rooted then out
    else out + [s]
  }

  function Walk(rooted: bool, out: seq<string>, ss: seq<string>): seq<string>
    decreases |ss|
  {
    if ss == [] then out else Walk(rooted, Walked(rooted, out, ss[0]), ss[1..])
  }

  predicate Rooted(p: string) { p != "" && p[0] == '/' }

  function Segments(p: string): seq<string> { Walk(Rooted(p), [], Split(p)) }

  function Render(rooted: bool, ss: seq<string>): string {
    if rooted then "/" + Join(ss) else if ss == [] then "." else Join(ss)
  }

  function NormalizePath(p: string): string { Render(Rooted(p), Segments(p)) }

  /** The segments of a clean path. */
  ghost predicate Clean(rooted: bool, ss: seq<string>) {
    forall i :: 0 <= i < |ss| ==> CleanAt(rooted, ss, i)
  }

  ghost predicate CleanAt(rooted: bool, ss: seq<string>, i: nat)
    requires i < |ss|
  {
    && ss[i] != "" && ss[i] != "." && '/' !in ss[i]
    && (ss[i] == ".." ==> !rooted && forall j :: 0 <= j < i ==> ss[j] == "..")
  }

  lemma WalkedIsClean(rooted: bool, out: seq<string>, s: string)
    requires Clean(rooted, out) && '/' !in s
    ensures Clean(rooted, Walked(rooted, out, s))
  {
    var after := Walked(rooted, out, s);
    forall i | 0 <= i < |after|
      ensures CleanAt(rooted, after, i)
    {
      if i < |out| {
        assert CleanAt(rooted, out, i);
      } else if s == ".." && out != [] {
        assert CleanAt(rooted, out, |out| - 1);
      }
    }
  }

  lemma {:induction false} WalkIsClean(rooted: bool, out: seq<string>, ss: seq<string>)
    requires Clean(rooted, out) && forall i :: 0 <= i < |ss| ==> '/' !in ss[i]
    ensures Clean(rooted, Walk(rooted, out, ss))
    decreases |ss|
  {
    hide Walked, Clean;
    if ss != [] {
      WalkedIsClean(rooted, out, ss[0]);
      WalkIsClean(rooted, Walked(rooted, out, ss[0]), ss[1..]);
    }
  }

  lemma {:induction false} WalkKeepsClean(rooted: bool, out: seq<string>, ss: seq<string>)
    requires Clean(rooted, out + ss)
    ensures Walk(rooted, out, ss) == out + ss
    decreases |ss|
  {
    if ss == [] {
      assert out + [] == out;
    } else {
      assert CleanAt(rooted, out + ss, |out|);
      assert (out + ss)[|out|] == ss[0];
      assert out != [] && ss[0] == ".." ==> (out + ss)[|out| - 1] == "..";
      assert Walked(rooted, out, ss[0]) == out + [ss[0]];
      assert out + [ss[0]] + ss[1..] == out + ss;
      WalkKeepsClean(rooted, out + [ss[0]], ss[1..]);
    }
  }

  lemma SegmentsAreClean(p: string)
    ensures Clean(Rooted(p), Segments(p))
  {
    hide Walk, Split;
    WalkIsClean(Rooted(p), [], Split(p));
  }

  lemma CleanFront(rooted: bool, ss: seq<string>, n: nat)
    requires Clean(rooted, ss) && n <= |ss|
    ensures Clean(rooted, ss[..n])
  {
    forall i | 0 <= i < n
      ensures CleanAt(rooted, ss[..n], i)
    {
      assert CleanAt(rooted, ss, i);
    }
  }

  // What the pieces of a clean path are.
  lemma SplitRendered(rooted: bool, ss: seq<string>)
    requires Clean(rooted, ss)
    ensures Rooted(Render(rooted, ss)) == rooted
    ensures Split(Render(rooted, ss)) ==
      (if rooted then [""] else []) + (if ss != [] then ss else if rooted then [""] else ["."])
  {
    forall i | 0 <= i < |ss|
      ensures ss[i] != "" && '/' !in ss[i]
    {
      assert CleanAt(rooted, ss, i);
    }
    if ss == [] {
      assert Split("/") == Split("")  + Split("") by {
        SplitConcat("", "");
      }
      SplitOne(".");
    } else {
      SplitJoin(ss);
      SplitConcat("", Join(ss));
      assert "" + "/" + Join(ss) == "/" + Join(ss);
    }
  }

  /** A clean path is taken apart into the segments it was made of. */
  lemma SegmentsOfRendered(rooted: bool, ss: seq<string>)
    requires Clean(rooted, ss)
    ensures Rooted(Render(rooted, ss)) == rooted && Segments(Render(rooted, ss)) == ss
  {
    hide Render, Split, Clean;
    SplitRendered(rooted, ss);
    assert [] + ss == ss;
    WalkKeepsClean(rooted, [], ss);
    if ss == [] {
      assert rooted ==> Walk(rooted, [], ["", ""]) == Walk(rooted, [], [""]);
    } else if rooted {
      assert ([""] + ss)[1..] == ss;
    }
  }

  /** Normalising twice is normalising once. */
  lemma NormalizeIsIdempotent(p: string)
    ensures NormalizePath(NormalizePath(p)) == NormalizePath(p)
  {
    hide Segments, Render, Rooted, Clean;
    SegmentsAreClean(p);
    SegmentsOfRendered(Rooted(p), Segments(p));
  }

  // ----- Roots ------------------------------------------------------------------------------

  function TrimSuffix(s: string, c: char): string {
    if s != "" && s[|s| - 1] == c then s[..|s| - 1] else s
  }

  function TrimPrefix(s: string, front: string): string {
    if front <= s then s[|front|..] else s
  }

  /** The path is the directory or lies below it. */
  predicate Within(p: string, dir: string) {
    p == dir || TrimSuffix(dir, '/') + "/" <= p
  }

  function LongestRoot(p: string, roots: seq<string>): string {
    if roots == [] then ""
    else
      var best, r := LongestRoot(p, roots[..|roots| - 1]), NormalizePath(roots[|roots| - 1]);
      if Within(p, r) && |r| > |best| then r else best
  }

  method FindRoot(p: string, roots: seq<string>) returns (best: string)
    ensures best == LongestRoot(p, roots)
  {
    best := "";
    for i := 0 to |roots|
      invariant best == LongestRoot(p, roots[..i])
    {
      var r := NormalizePath(roots[i]);
      assert roots[..i + 1][..i] == roots[..i];
      if Within(p, r) && |r| > |best| {
        best := r;
      }
    }
    assert roots[..|roots|] == roots;
  }

  ghost predicate HasRoot(p: string, roots: seq<string>, r: string) {
    exists i :: 0 <= i < |roots| && r == NormalizePath(roots[i]) && Within(p, r)
  }

  lemma RenderIsNotEmpty(rooted: bool, ss: seq<string>)
    requires Clean(rooted, ss)
    ensures Render(rooted, ss) != ""
  {
    if ss != [] {
      assert CleanAt(rooted, ss, 0);
    }
  }

  lemma NormalizedIsNotEmpty(p: string)
    ensures NormalizePath(p) != ""
  {
    hide Clean, Render, Segments;
    SegmentsAreClean(p);
    RenderIsNotEmpty(Rooted(p), Segments(p));
  }

  /** The root found is the longest one the path belongs to; the empty string means none. */
  lemma {:induction false} LongestRootIsLongest(p: string, roots: seq<string>)
    ensures var best := LongestRoot(p, roots);
      && (best != "" ==> HasRoot(p, roots, best))
      && (forall r :: HasRoot(p, roots, r) ==> best != "" && |r| <= |best|)
  {
    hide NormalizePath, Within;
    if roots != [] {
      var n := |roots| - 1;
      var front, last := roots[..n], NormalizePath(roots[n]);
      LongestRootIsLongest(p, front);
      NormalizedIsNotEmpty(roots[n]);
      forall r | HasRoot(p, roots, r)
        ensures LongestRoot(p, roots) != "" && |r| <= |LongestRoot(p, roots)|
      {
        var i :| 0 <= i < |roots| && r == NormalizePath(roots[i]) && Within(p, r);
        if i < n {
          assert front[i] == roots[i];
          assert HasRoot(p, front, r);
        }
      }
      var best := LongestRoot(p, front);
      if LongestRoot(p, roots) != last && best != "" {
        var i :| 0 <= i < |front| && best == NormalizePath(front[i]) && Within(p, best);
        assert best == NormalizePath(roots[i]);
      }
    }
  }

  // A directory a path lies in is spelled by the beginning of the path.
  lemma WithinIsPrefix(p: string, dir: string)
    requires Within(p, dir)
    ensures dir <= p
  {
    var front := TrimSuffix(dir, '/');
    if p != dir {
      assert front <= front + "/" <= p;
      if front != dir {
        assert dir == front + "/";
      }
    }
  }

  // Clean segments of a path and of a directory it lies in.
  ghost predicate Below(rooted: bool, ps: seq<string>, ds: seq<string>) {
    ds <= ps && (rooted || ds != [] || ps == [])
  }

  // A path longer than the directory it lies in.
  lemma RenderBelow(rooted: bool, ds: seq<string>, tail: seq<string>)
    requires Clean(rooted, ds + tail) && tail != [] && (rooted || ds != [])
    ensures var dir := Render(rooted, ds);
      && Render(rooted, ds + tail) == TrimSuffix(dir, '/') + "/" + Join(tail)
      && (dir == "/" <==> ds == []) && (dir != "/" ==> TrimSuffix(dir, '/') == dir)
  {
    var dir := Render(rooted, ds);
    if ds == [] {
      assert ds + tail == tail;
      assert TrimSuffix("/", '/') == "";
      assert dir == "/";
    } else {
      JoinConcat(ds, tail);
      CleanFront(rooted, ds + tail, |ds|);
      assert (ds + tail)[..|ds|] == ds;
      JoinEnds(rooted, ds);
    }
  }

  lemma JoinEnds(rooted: bool, ss: seq<string>)
    requires ss != [] && Clean(rooted, ss)
    ensures Join(ss) != "" && Join(ss)[|Join(ss)| - 1] != '/'
  {
    var n := |ss| - 1;
    assert CleanAt(rooted, ss, n);
    if n > 0 {
      assert ss == ss[..n] + [ss[n]];
      JoinConcat(ss[..n], [ss[n]]);
    }
    assert ss[n][|ss[n]| - 1] in ss[n];
  }

  // The pieces of a path that begins with those of a directory.
  lemma PiecesBelow(rooted: bool, ps: seq<string>, rooted': bool, ds: seq<string>, rest: seq<string>)
    requires Clean(rooted, ps) && Clean(rooted', ds) && rest != []
    requires var pieces := (if rooted then [""] else []) + (if ps != [] then ps else if rooted then [""] else ["."]);
      pieces == (if rooted' then [""] else []) + (if ds != [] then ds else if rooted' then [] else ["."]) + rest
    ensures rooted == rooted' && Below(rooted, ps, ds)
  {
    var pieces := (if rooted then [""] else []) + (if ps != [] then ps else if rooted then [""] else ["."]);
    assert ps != [] ==> CleanAt(rooted, ps, 0);
    assert ds != [] ==> CleanAt(rooted', ds, 0);
    assert (pieces[0] == "") == rooted == rooted';
    if rooted {
      assert pieces[1..] == if ps != [] then ps else [""];
      assert pieces[1..] == ds + rest;
      assert ds != [] ==> pieces[1] == ds[0];
    } else {
      assert pieces == if ps != [] then ps else ["."];
      assert pieces == (if ds != [] then ds else ["."]) + rest;
    }
  }

  /** One clean path lies in another exactly if its segments begin with the other's. */
  lemma WithinBySegments(rooted: bool, ps: seq<string>, rooted': bool, ds: seq<string>)
    requires Clean(rooted, ps) && Clean(rooted', ds)
    ensures Within(Render(rooted, ps), Render(rooted', ds)) <==> rooted == rooted' && Below(rooted, ps, ds)
  {
    hide Render, Split, Clean, Join, TrimSuffix, Segments;
    var p, dir := Render(rooted, ps), Render(rooted', ds);
    var base := TrimSuffix(dir, '/');
    if rooted == rooted' && Below(rooted, ps, ds) && ps != ds {
      assert ps == ds + ps[|ds|..];
      RenderBelow(rooted, ds, ps[|ds|..]);
      assert base + "/" <= p;
    }
    if p == dir {
      SegmentsOfRendered(rooted, ps);
      SegmentsOfRendered(rooted', ds);
    } else if base + "/" <= p {
      var rest := p[|base| + 1..];
      assert p == base + "/" + rest;
      SplitConcat(base, rest);
      SplitRendered(rooted, ps);
      SplitBase(rooted', ds);
      PiecesBelow(rooted, ps, rooted', ds, Split(rest));
    }
  }

  lemma SplitBase(rooted: bool, ds: seq<string>)
    requires Clean(rooted, ds)
    ensures Split(TrimSuffix(Render(rooted, ds), '/')) ==
      (if rooted then [""] else []) + (if ds != [] then ds else if rooted then [] else ["."])
  {
    if ds == [] {
      SplitOne(".");
    } else {
      SplitRendered(rooted, ds);
      JoinEnds(rooted, ds);
    }
  }

  // ----- Groups -----------------------------------------------------------------------------

  // The segments of a path below a root.
  function Relative(p: string, root: string): seq<string> {
    var rel := TrimPrefix(if root != "/" then TrimPrefix(p, root) else p, "/");
    if rel == "" then [] else Split(rel)
  }

  /** The ancestor at most `depth` levels below the longest root; a path outside every root
      is a group of its own. */
  function GroupKey(p: string, roots: seq<string>, depth: int): string {
    var norm := NormalizePath(p);
    var root := LongestRoot(norm, roots);
    if depth <= 0 then ""
    else if root == "" then ['\0'] + norm
    else
      var rel := Relative(norm, root);
      if rel == [] then root
      else
        var front := if |rel| > depth then rel[..depth] else rel;
        (if root == "/" then "" else root) + "/" + Join(front)
  }

  /** The text before the last slash, or the root directory. */
  function ParentDir(p: string): string {
    var norm := NormalizePath(p);
    var i := LastSlash(norm);
    if i > 0 then norm[..i] else "/"
  }

  function LastSlash(s: string): (i: int)
    ensures -1 <= i < |s|
  {
    if s == "" then -1 else if s[|s| - 1] == '/' then |s| - 1 else LastSlash(s[..|s| - 1])
  }

  /** A directory opens the group of its own path; anything else belongs to its directory. */
  function EntryGroup(fm: FileMeta, roots: seq<string>, depth: int): string {
    if depth <= 0 then "" else GroupKey(if fm.isDir then fm.path else ParentDir(fm.path), roots, depth)
  }

  // ----- What a group is --------------------------------------------------------------------

  lemma RelativeBySegments(rooted: bool, ps: seq<string>, ds: seq<string>)
    requires Clean(rooted, ps) && Clean(rooted, ds) && Below(rooted, ps, ds)
    ensures Relative(Render(rooted, ps), Render(rooted, ds)) == ps[|ds|..]
  {
    hide Split, Clean, Join;
    var p, root, tail := Render(rooted, ps), Render(rooted, ds), ps[|ds|..];
    if tail == [] {
      assert ps == ds;
    } else {
      assert ps == ds + tail;
      RenderBelow(rooted, ds, tail);
      CleanTail(rooted, ps, |ds|);
      SplitJoin(tail);
      JoinStarts(tail);
    }
  }

  lemma CleanTail(rooted: bool, ss: seq<string>, n: nat)
    requires Clean(rooted, ss) && n <= |ss|
    ensures forall i :: 0 <= i < |ss[n..]| ==> ss[n..][i] != "" && '/' !in ss[n..][i]
  {
    forall i | 0 <= i < |ss[n..]|
      ensures ss[n..][i] != "" && '/' !in ss[n..][i]
    {
      assert CleanAt(rooted, ss, n + i);
    }
  }

  lemma JoinStarts(ss: seq<string>)
    requires ss != [] && ss[0] != "" && '/' !in ss[0]
    ensures Join(ss) != "" && Join(ss)[0] != '/'
  {
    assert ss[0][0] in ss[0];
    assert Join(ss)[0] == ss[0][0];
  }

  lemma EndsInName(ws: seq<string>)
    requires Clean(true, ws) && ws != []
    ensures TrimSuffix(Render(true, ws), '/') == Render(true, ws)
  {
    JoinEnds(true, ws);
  }

  ghost predicate Normal(p: string) {
    Clean(Rooted(p), Segments(p)) && p == Render(Rooted(p), Segments(p))
  }

  lemma RenderedIsNormal(rooted: bool, ss: seq<string>)
    requires Clean(rooted, ss)
    ensures var p := Render(rooted, ss);
      Normal(p) && NormalizePath(p) == p && Rooted(p) == rooted && Segments(p) == ss && p != ""
  {
    hide Clean, Render, Segments, Rooted;
    SegmentsOfRendered(rooted, ss);
    RenderIsNotEmpty(rooted, ss);
  }

  lemma NormalizedIsNormal(p: string)
    ensures Normal(NormalizePath(p))
  {
    hide Clean, Render, Segments, Rooted, Normal;
    SegmentsAreClean(p);
    RenderedIsNormal(Rooted(p), Segments(p));
  }

  lemma WithinNormal(p: string, dir: string)
    requires Normal(p) && Normal(dir)
    ensures Within(p, dir) <==> Rooted(p) == Rooted(dir) && Below(Rooted(p), Segments(p), Segments(dir))
  {
    hide Clean, Render, Segments, Rooted, Within, Below;
    WithinBySegments(Rooted(p), Segments(p), Rooted(dir), Segments(dir));
  }

  lemma RootIsNormal(p: string, roots: seq<string>)
    requires LongestRoot(p, roots) != ""
    ensures Normal(LongestRoot(p, roots)) && Within(p, LongestRoot(p, roots))
  {
    hide LongestRoot, NormalizePath, Normal, Within;
    LongestRootIsLongest(p, roots);
    var i :| 0 <= i < |roots| && LongestRoot(p, roots) == NormalizePath(roots[i]);
    NormalizedIsNormal(roots[i]);
  }

  // How many segments of a path its group keeps.
  function Kept(ps: seq<string>, ds: seq<string>, depth: int): (n: nat)
    ensures n <= |ps|
  {
    if depth <= 0 || |ps| <= |ds| + depth then |ps| else |ds| + depth
  }

  ghost predicate Inside(p: string, roots: seq<string>) { LongestRoot(NormalizePath(p), roots) != "" }

  // The group of a path under a root, in segments.
  lemma KeyBySegments(p: string, roots: seq<string>, depth: int)
    requires depth > 0 && Inside(p, roots)
    ensures var norm := NormalizePath(p); var root := LongestRoot(norm, roots);
      && Normal(norm) && Normal(root) && Rooted(root) == Rooted(norm)
      && Below(Rooted(norm), Segments(norm), Segments(root))
      && var ks := Segments(norm)[..Kept(Segments(norm), Segments(root), depth)];
         && GroupKey(p, roots, depth) == Render(Rooted(norm), ks)
         && Clean(Rooted(norm), ks) && Below(Rooted(norm), ks, Segments(root))
         && Below(Rooted(norm), Segments(norm), ks)
  {
    hide NormalizePath, LongestRoot, Clean, Render, Segments, Rooted, Within, Relative;
    var norm := NormalizePath(p);
    var root := LongestRoot(norm, roots);
    NormalizedIsNormal(p);
    RootIsNormal(norm, roots);
    WithinNormal(norm, root);
    var b, ps, ds := Rooted(norm), Segments(norm), Segments(root);
    RelativeBySegments(b, ps, ds);
    var n := Kept(ps, ds, depth);
    CleanFront(b, ps, n);
    assert ps[..|ds|] == ds;
    if n == |ds| {
      assert ps[..n] == ds;
    } else {
      var rel := ps[|ds|..];
      var tail := ps[|ds|..n];
      assert tail == if |rel| > depth then rel[..depth] else rel;
      assert ps[..n] == ds + tail;
      RenderBelow(b, ds, tail);
      TrimmedRoot(root);
    }
  }

  lemma TrimmedRoot(root: string)
    requires root != "/" ==> TrimSuffix(root, '/') == root
    ensures TrimSuffix(root, '/') == if root == "/" then "" else root
  {
  }

  // Directories that a path lies in, equally long, are the same.
  lemma SameLength(p: string, d: string, e: string)
    requires Within(p, d) && Within(p, e) && |d| == |e|
    ensures d == e
  {
    WithinIsPrefix(p, d);
    WithinIsPrefix(p, e);
  }

  // A directory between a path and its longest root has that root.
  lemma RootOfBetween(p: string, k: string, roots: seq<string>)
    requires Normal(p) && Normal(k) && LongestRoot(p, roots) != ""
    requires Within(p, k) && Within(k, LongestRoot(p, roots))
    ensures LongestRoot(k, roots) == LongestRoot(p, roots)
  {
    hide NormalizePath, LongestRoot, Normal, Within;
    var r, r' := LongestRoot(p, roots), LongestRoot(k, roots);
    LongestRootIsLongest(p, roots);
    LongestRootIsLongest(k, roots);
    var i :| 0 <= i < |roots| && r == NormalizePath(roots[i]);
    assert HasRoot(k, roots, r);
    var j :| 0 <= j < |roots| && r' == NormalizePath(roots[j]) && Within(k, r');
    NormalizedIsNormal(roots[j]);
    WithinTrans(p, k, r');
    assert HasRoot(p, roots, r');
    SameLength(k, r, r');
  }

  lemma WithinTrans(p: string, k: string, d: string)
    requires Normal(p) && Normal(k) && Normal(d) && Within(p, k) && Within(k, d)
    ensures Within(p, d)
  {
    hide Normal, Within, Rooted, Segments;
    WithinNormal(p, k);
    WithinNormal(k, d);
    WithinNormal(p, d);
  }

  /** The group of a path under a root is a directory between the path and that root, at
      most `depth` levels below it; it is its own group, under the same root. */
  lemma GroupIsAncestor(p: string, roots: seq<string>, depth: int)
    requires depth > 0 && Inside(p, roots)
    ensures var norm, key := NormalizePath(p), GroupKey(p, roots, depth); var root := LongestRoot(norm, roots);
      && Within(norm, key) && Within(key, root) && |Segments(key)| <= |Segments(root)| + depth
      && NormalizePath(key) == key && LongestRoot(key, roots) == root
      && GroupKey(key, roots, depth) == key
  {
    hide NormalizePath, LongestRoot, Clean, Render, Segments, Rooted, Within, GroupKey, Normal;
    KeyBySegments(p, roots, depth);
    var norm, key := NormalizePath(p), GroupKey(p, roots, depth);
    var root := LongestRoot(norm, roots);
    var ks := Segments(norm)[..Kept(Segments(norm), Segments(root), depth)];
    RenderedIsNormal(Rooted(norm), ks);
    WithinNormal(norm, key);
    WithinNormal(key, root);
    RootOfBetween(norm, key, roots);
    KeyBySegments(key, roots, depth);
    assert ks[..|ks|] == ks;
  }

  /** Two paths under roots share a group exactly if they have the same root and either the
      group lies `depth` levels below it and both paths in the group, or they are the same
      path. */
  lemma GroupMembers(p: string, q: string, roots: seq<string>, depth: int)
    requires depth > 0 && Inside(p, roots) && Inside(q, roots)
    ensures var np, nq, key := NormalizePath(p), NormalizePath(q), GroupKey(p, roots, depth);
      var root := LongestRoot(np, roots);
      GroupKey(q, roots, depth) == key <==>
        && LongestRoot(nq, roots) == root
        && (if |Segments(key)| == |Segments(root)| + depth then Within(nq, key) else nq == np)
  {
    hide NormalizePath, LongestRoot, Clean, Render, Segments, Rooted, Within, GroupKey, Normal;
    var np, nq, key := NormalizePath(p), NormalizePath(q), GroupKey(p, roots, depth);
    var root := LongestRoot(np, roots);
    GroupIsAncestor(p, roots, depth);
    GroupIsAncestor(q, roots, depth);
    KeyBySegments(p, roots, depth);
    KeyBySegments(q, roots, depth);
    var ps, qs, rs := Segments(np), Segments(nq), Segments(root);
    var ks := ps[..Kept(ps, rs, depth)];
    RenderedIsNormal(Rooted(np), ks);
    WithinNormal(nq, key);
    if LongestRoot(nq, roots) == root {
      var ls := qs[..Kept(qs, rs, depth)];
      RenderedIsNormal(Rooted(nq), ls);
      SharedFront(ps, qs, rs, depth);
      NormalBySegments(np, nq);
    }
  }

  lemma NormalBySegments(p: string, q: string)
    requires Normal(p) && Normal(q)
    ensures p == q <==> Rooted(p) == Rooted(q) && Segments(p) == Segments(q)
  {
    hide Clean, Render, Segments, Rooted;
  }

  lemma SharedFront(ps: seq<string>, qs: seq<string>, rs: seq<string>, depth: int)
    requires depth > 0 && rs <= ps && rs <= qs
    ensures var ks := ps[..Kept(ps, rs, depth)];
      qs[..Kept(qs, rs, depth)] == ks <==> if |ks| == |rs| + depth then ks <= qs else qs == ps
  {
    var ks := ps[..Kept(ps, rs, depth)];
    if |ks| < |rs| + depth {
      assert ks == ps;
      if |qs| <= |rs| + depth {
        assert qs[..Kept(qs, rs, depth)] == qs;
      }
    }
  }

  /** A path outside every root shares its group with nothing but itself. (No path of the
      system holds a NUL.) */
  lemma OutsideIsAlone(p: string, q: string, roots: seq<string>, depth: int)
    requires depth > 0 && !Inside(p, roots) && '\0' !in NormalizePath(q)
    ensures GroupKey(q, roots, depth) == GroupKey(p, roots, depth) <==> NormalizePath(q) == NormalizePath(p)
  {
    hide NormalizePath, LongestRoot, Within, Relative;
    if Inside(q, roots) {
      var key, norm := GroupKey(q, roots, depth), NormalizePath(q);
      GroupIsAncestor(q, roots, depth);
      KeyIsNotEmpty(q, roots, depth);
      WithinIsPrefix(norm, key);
      assert key[0] in norm;
      assert GroupKey(p, roots, depth)[0] == '\0';
    } else {
      assert GroupKey(p, roots, depth)[1..] == NormalizePath(p);
      assert GroupKey(q, roots, depth)[1..] == NormalizePath(q);
    }
  }

  lemma KeyIsNotEmpty(q: string, roots: seq<string>, depth: int)
    requires depth > 0 && Inside(q, roots)
    ensures GroupKey(q, roots, depth) != ""
  {
    hide NormalizePath, LongestRoot, Relative;
  }

  /** A file belongs to the group of the directory it lies in. */
  lemma FilesFollowTheirDirectory(ss: seq<string>, name: string, fm: FileMeta, roots: seq<string>, depth: int)
    requires Clean(true, ss + [name]) && fm.path == Render(true, ss + [name]) && !fm.isDir
    ensures EntryGroup(fm, roots, depth) == EntryGroup(fm.(path := Render(true, ss), isDir := true), roots, depth)
  {
    hide Render, Segments, NormalizePath, Split, GroupKey;
    RenderedIsNormal(true, ss + [name]);
    ParentOfRendered(ss, name);
  }

  lemma ParentOfRendered(ss: seq<string>, name: string)
    requires Clean(true, ss + [name])
    ensures var p := Render(true, ss + [name]);
      NormalizePath(p) == p ==> ParentDir(p) == Render(true, ss)
  {
    hide NormalizePath;
    var p := Render(true, ss + [name]);
    RenderBelow(true, ss, [name]);
    assert CleanAt(true, ss + [name], |ss|);
    assert (ss + [name])[|ss|] == name;
    var base := TrimSuffix(Render(true, ss), '/');
    assert Join([name]) == name;
    LastSlashOf(base, name);
  }

  lemma {:induction false} LastSlashOf(base: string, name: string)
    requires '/' !in name
    ensures LastSlash(base + "/" + name) == |base|
  {
    var s := base + "/" + name;
    if name != "" {
      assert s[..|s| - 1] == base + "/" + name[..|name| - 1];
      assert name[|name| - 1] in name;
      LastSlashOf(base, name[..|name| - 1]);
    } else {
      assert s == base + "/";
    }
  }
}
