/** The search for an output converter in a group of audio widgets. */
module AudioPath {

  const MAXWIDGETS := 256
  const AOUT := 0

  class Widget {
    var kind: nat
    var list: seq<Widget?>
    var next: Widget?
    var from: Widget?

    constructor (kind: nat)
      ensures this.kind == kind && list == [] && next == null && from == null
    {
      this.kind, list, next, from := kind, [], null, null;
    }
  }

  /** The group's chain of next links runs through ws. */
  ghost predicate Linked(first: Widget?, ws: seq<Widget>)
    reads (set w | w in ws)`next
  {
    && first == (if ws == [] then null else ws[0])
    && forall i :: 0 <= i < |ws| ==> ws[i].next == if i + 1 < |ws| then ws[i + 1] else null
  }

  /** At most 256 widgets, connected only among themselves. */
  ghost predicate Group(ws: seq<Widget>)
    reads (set w | w in ws)`list
  {
    && |ws| <= MAXWIDGETS
    && (forall i, j :: 0 <= i < j < |ws| ==> ws[i] != ws[j])
    && forall w: Widget, v: Widget? :: w in ws && v in w.list && v != null ==> v in ws
  }

  /** A walk along connections. */
  ghost predicate Path(older p: seq<Widget>, ws: seq<Widget>)
    reads (set w | w in ws)`list
  {
    p != [] && (forall i :: 0 <= i < |p| ==> p[i] in ws) && forall i :: 0 <= i < |p| - 1 ==> p[i + 1] in p[i].list
  }

  /** A walk from src to an output converter. */
  ghost predicate Reaches(older p: seq<Widget>, src: Widget, ws: seq<Widget>)
    reads (set w | w in ws)`list, (set w | w in ws)`kind
  {
    Path(p, ws) && p[0] == src && p[|p| - 1].kind == AOUT
  }

  /** The from links lead back along p. */
  ghost predicate Traced(p: seq<Widget>, ws: seq<Widget>)
    reads (set w | w in ws)`from
  {
    (forall i :: 0 <= i < |p| ==> p[i] in ws) && forall i :: 0 < i < |p| ==> p[i].from == p[i - 1]
  }

  // ---------------------------------------------------------------- the search state

  /** The queue so far, with the distance of each entry from the start and the
      index of the entry it was found from. */
  datatype Trail = Trail(q: seq<Widget>, d: seq<nat>, par: seq<nat>)

  /** Each widget once, nearest first, each found from an earlier one. */
  ghost predicate Ordered(s: Trail, src: Widget) {
    && |s.q| == |s.d| == |s.par| > 0 && s.q[0] == src && s.d[0] == 0
    && (forall i, j :: 0 <= i < j < |s.q| ==> s.q[i] != s.q[j])
    && (forall i, j :: 0 <= i < j < |s.q| ==> s.d[i] <= s.d[j])
    && (forall j {:trigger s.par[j]} :: 0 < j < |s.q| ==> s.par[j] < j && s.d[j] == s.d[s.par[j]] + 1)
  }

  ghost predicate Edge(u: Widget, v: Widget)
    reads u`list
  {
    v in u.list
  }

  ghost predicate Shape(s: Trail, src: Widget, ws: seq<Widget>)
    reads (set w | w in ws)`list
  {
    && Ordered(s, src) && (forall i :: 0 <= i < |s.q| ==> s.q[i] in ws)
    && forall j {:trigger s.par[j]} :: 0 < j < |s.q| ==> Edge(s.q[s.par[j]], s.q[j])
  }

  /** The from link is the parent. */
  ghost predicate Back(v: Widget, u: Widget)
    reads v`from
  {
    v.from == u
  }

  /** The from links are the parents, and mark exactly the queued widgets. */
  ghost predicate Marked(s: Trail, ws: seq<Widget>)
    requires |s.q| == |s.par| && forall j {:trigger s.par[j]} :: 0 < j < |s.q| ==> s.par[j] < j
    reads (set w | w in ws)`from
  {
    && (forall w :: w in ws ==> (w.from != null <==> w in s.q))
    && (forall i :: 0 <= i < |s.q| ==> s.q[i] in ws)
    && forall j {:trigger s.par[j]} :: 0 < j < |s.q| ==> Back(s.q[j], s.q[s.par[j]])
  }

  /** v is queued no further than n from the start. */
  ghost predicate Within(s: Trail, v: Widget, n: nat)
    requires |s.q| == |s.d|
  {
    exists j :: 0 <= j < |s.q| && s.q[j] == v && s.d[j] <= n
  }

  /** w, at distance n, is no converter, and all it connects to is queued. */
  ghost predicate Done(s: Trail, w: Widget, n: nat)
    requires |s.q| == |s.d|
    reads w`list, w`kind
  {
    w.kind != AOUT && forall v: Widget? :: v in w.list && v != null ==> Within(s, v, n + 1)
  }

  ghost predicate Expanded(s: Trail, l: nat, ws: seq<Widget>)
    requires |s.q| == |s.d| && l <= |s.q|
    reads (set w | w in ws)`list, (set w | w in ws)`kind
  {
    (forall i :: 0 <= i < |s.q| ==> s.q[i] in ws) && forall i :: 0 <= i < l ==> Done(s, s.q[i], s.d[i])
  }

  /** A walk that is shorter than the distance of entry l stays among the
      expanded entries; if everything is expanded, every walk does. */
  lemma {:induction false} WalkStaysExpanded(s: Trail, l: nat, src: Widget, ws: seq<Widget>, p: seq<Widget>)
      returns (j: nat)
    requires Group(ws) && Shape(s, src, ws) && l <= |s.q| && Expanded(s, l, ws)
    requires Path(p, ws) && p[0] == src && (l < |s.q| ==> |p| - 1 < s.d[l]) && l > 0
    ensures j < l && s.q[j] == p[|p| - 1] && s.d[j] <= |p| - 1
  {
    var k := |p| - 1;
    if k == 0 {
      j := 0;
    } else {
      var i := WalkStaysExpanded(s, l, src, ws, p[..k]);
      assert p[k] in p[k - 1].list && s.q[i] == p[k - 1] && Done(s, s.q[i], s.d[i]);
      assert Within(s, p[k], s.d[i] + 1);
      j :| 0 <= j < |s.q| && s.q[j] == p[k] && s.d[j] <= s.d[i] + 1;
    }
  }

  /** The way back along the parents from entry j is a walk as long as its distance. */
  ghost function Trace(s: Trail, j: nat): (p: seq<Widget>)
    requires |s.q| == |s.par| && j < |s.q| && forall i :: 0 < i < |s.q| ==> s.par[i] < i
  {
    if j == 0 then [s.q[0]] else Trace(s, s.par[j]) + [s.q[j]]
  }

  lemma {:induction false} TraceIsPath(s: Trail, src: Widget, ws: seq<Widget>, j: nat)
    requires Shape(s, src, ws) && Marked(s, ws) && j < |s.q|
    ensures var p := Trace(s, j);
            Path(p, ws) && p[0] == src && p[|p| - 1] == s.q[j] && |p| == s.d[j] + 1 && Traced(p, ws)
  {
    if j > 0 {
      TraceIsPath(s, src, ws, s.par[j]);
      assert Edge(s.q[s.par[j]], s.q[j]) && Back(s.q[j], s.q[s.par[j]]);
    }
  }

  // ---------------------------------------------------------------- the queue fits

  lemma {:induction false} DistinctFits(q: seq<Widget>, ws: seq<Widget>)
    requires forall i, j :: 0 <= i < j < |q| ==> q[i] != q[j]
    requires forall i :: 0 <= i < |q| ==> q[i] in ws
    ensures |q| <= |ws|
  {
    var a, b := set w | w in q, set w | w in ws;
    DistinctCard(q);
    assert a <= b;
    CardAtMost(a, b);
    SeqCard(ws);
  }

  lemma {:induction false} DistinctCard(q: seq<Widget>)
    requires forall i, j :: 0 <= i < j < |q| ==> q[i] != q[j]
    ensures |set w | w in q| == |q|
  {
    if q != [] {
      var n := |q| - 1;
      DistinctCard(q[..n]);
      assert (set w | w in q) == (set w | w in q[..n]) + {q[n]};
    }
  }

  lemma {:induction false} SeqCard(q: seq<Widget>)
    ensures |set w | w in q| <= |q|
  {
    if q != [] {
      var n := |q| - 1;
      SeqCard(q[..n]);
      assert (set w | w in q) == (set w | w in q[..n]) + {q[n]};
    }
  }

  lemma {:induction false} CardAtMost(a: set<Widget>, b: set<Widget>)
    requires a <= b
    ensures |a| <= |b|
  {
    assert b == a + (b - a);
  }

  // ---------------------------------------------------------------- findpath

  lemma NextLinked(first: Widget?, ws: seq<Widget>, i: nat)
    requires Linked(first, ws) && i < |ws|
    ensures ws[i].next == if i + 1 < |ws| then ws[i + 1] else null
  {}

  method ClearMarks(first: Widget?, ghost ws: seq<Widget>)
    requires Linked(first, ws)
    modifies (set w | w in ws)`from
    ensures forall w :: w in ws ==> w.from == null
  {
    var w := first;
    ghost var i: nat := 0;
    while w != null
      invariant Linked(first, ws)
      invariant i <= |ws| && w == (if i < |ws| then ws[i] else null)
      invariant forall k :: 0 <= k < i ==> ws[k].from == null
      decreases |ws| - i
    {
      NextLinked(first, ws, i);
      w.from := null;
      w := w.next;
      i := i + 1;
    }
  }

  ghost function Push(s: Trail, l: nat, v: Widget): Trail
    requires l < |s.d|
  {
    Trail(s.q + [v], s.d + [s.d[l] + 1], s.par + [l])
  }

  lemma PushShape(s: Trail, l: nat, v: Widget, src: Widget, ws: seq<Widget>)
    requires Group(ws) && Shape(s, src, ws) && l < |s.q| && v in s.q[l].list && v !in s.q
    requires s.d[|s.q| - 1] <= s.d[l] + 1
    ensures Shape(Push(s, l, v), src, ws) && |s.q| < MAXWIDGETS
  {
    var t := Push(s, l, v);
    assert v in ws;
    forall j | 0 < j < |t.q|
      ensures Edge(t.q[t.par[j]], t.q[j])
    {
      assert j < |s.q| ==> Edge(s.q[s.par[j]], s.q[j]);
    }
    DistinctFits(t.q, ws);
  }

  lemma PushWithin(s: Trail, l: nat, v: Widget, x: Widget, n: nat)
    requires |s.q| == |s.d| && l < |s.q|
    ensures Within(s, x, n) ==> Within(Push(s, l, v), x, n)
    ensures Within(Push(s, l, v), v, s.d[l] + 1)
  {
    var t := Push(s, l, v);
    assert t.q[|s.q|] == v;
    if Within(s, x, n) {
      var j :| 0 <= j < |s.q| && s.q[j] == x && s.d[j] <= n;
      assert t.q[j] == x;
    }
  }

  lemma PushExpanded(s: Trail, l: nat, v: Widget, ws: seq<Widget>)
    requires |s.q| == |s.d| && l < |s.q| && Expanded(s, l, ws) && v in ws
    ensures Expanded(Push(s, l, v), l, ws)
  {
    var t := Push(s, l, v);
    forall i | 0 <= i < l
      ensures Done(t, t.q[i], t.d[i])
    {
      assert Done(s, s.q[i], s.d[i]) && t.q[i] == s.q[i] && t.d[i] == s.d[i];
      forall x: Widget? | x in t.q[i].list && x != null
        ensures Within(t, x, t.d[i] + 1)
      {
        PushWithin(s, l, v, x, s.d[i] + 1);
      }
    }
  }

  /** What is queued already is queued near enough. */
  lemma QueuedWithin(s: Trail, l: nat, v: Widget, src: Widget)
    requires Ordered(s, src) && l < |s.q| && v in s.q && s.d[|s.q| - 1] <= s.d[l] + 1
    ensures Within(s, v, s.d[l] + 1)
  {
    var j :| 0 <= j < |s.q| && s.q[j] == v;
  }

  /** Everything known of the search when the first l entries are expanded. */
  ghost predicate State(s: Trail, l: nat, src: Widget, ws: seq<Widget>)
    reads (set w | w in ws)`list, (set w | w in ws)`kind, (set w | w in ws)`from
  {
    l <= |s.q| && Shape(s, src, ws) && Marked(s, ws) && Expanded(s, l, ws)
  }

  /** All of the first n connections of entry l are queued, and nothing further. */
  ghost predicate Scanned(s: Trail, l: nat, list: seq<Widget?>, n: nat) {
    && |s.q| == |s.d| && l < |s.q| && n <= |list| && s.d[|s.q| - 1] <= s.d[l] + 1
    && forall k :: 0 <= k < n && list[k] != null ==> Within(s, list[k], s.d[l] + 1)
  }

  lemma ScannedSame(s: Trail, l: nat, list: seq<Widget?>, n: nat, src: Widget)
    requires Scanned(s, l, list, n) && n < |list| && (list[n] == null || list[n] in s.q) && Ordered(s, src)
    ensures Scanned(s, l, list, n + 1)
  {
    if list[n] != null {
      QueuedWithin(s, l, list[n], src);
    }
  }

  lemma ScannedNext(s: Trail, l: nat, list: seq<Widget?>, n: nat, v: Widget, src: Widget)
    requires Scanned(s, l, list, n) && n < |list| && list[n] == v && Ordered(s, src)
    ensures Scanned(Push(s, l, v), l, list, n + 1)
  {
    var t := Push(s, l, v);
    forall k | 0 <= k < n + 1 && list[k] != null
      ensures Within(t, list[k], t.d[l] + 1)
    {
      PushWithin(s, l, v, list[k], s.d[l] + 1);
    }
  }

  lemma EntryDone(s: Trail, l: nat, src: Widget, ws: seq<Widget>)
    requires State(s, l, src, ws) && l < |s.q| && s.q[l] in ws && s.q[l].kind != AOUT
    requires Scanned(s, l, s.q[l].list, |s.q[l].list|)
    ensures State(s, l + 1, src, ws)
  {
    assert Done(s, s.q[l], s.d[l]);
  }

  /** The marks cleared and src queued. */
  method Start(first: Widget?, src: Widget, ghost ws: seq<Widget>) returns (ghost s: Trail)
    requires Linked(first, ws) && src in ws
    modifies (set w | w in ws)`from
    ensures s == Trail([src], [0], [0]) && State(s, 0, src, ws)
  {
    ClearMarks(first, ws);
    src.from := src;
    s := Trail([src], [0], [0]);
  }

  /** Put v, found from entry l, at the end of the queue. */
  method Enqueue(q: array<Widget>, ghost l: nat, r: nat, w: Widget, v: Widget, ghost ws: seq<Widget>, ghost s: Trail)
    requires |s.q| == |s.par| == |s.d| && (forall j {:trigger s.par[j]} :: 0 < j < |s.q| ==> s.par[j] < j)
    requires Marked(s, ws)
    requires l < |s.q| == r < q.Length && q[..r] == s.q && w == s.q[l] && v in ws && v !in s.q
    modifies q, v`from
    ensures Marked(Push(s, l, v), ws) && q[..r + 1] == Push(s, l, v).q
  {
    v.from := w;
    q[r] := v;
    ghost var t := Push(s, l, v);
    forall j | 0 < j < |t.q|
      ensures Back(t.q[j], t.q[t.par[j]])
    {
      assert j < |s.q| ==> old(Back(s.q[j], s.q[s.par[j]]));
    }
  }

  lemma PushKeeps(s: Trail, l: nat, v: Widget, src: Widget, ws: seq<Widget>)
    requires Group(ws) && State(s, l, src, ws) && l < |s.q| && v in s.q[l].list && v !in s.q
    requires s.d[|s.q| - 1] <= s.d[l] + 1
    ensures Shape(Push(s, l, v), src, ws) && Expanded(Push(s, l, v), l, ws) && |s.q| < MAXWIDGETS && v in ws
  {
    PushShape(s, l, v, src, ws);
    PushExpanded(s, l, v, ws);
  }

  /** A widget seen for the first time goes into the queue. */
  method Meet(q: array<Widget>, ghost l: nat, r: nat, w: Widget, v: Widget, src: Widget, ghost ws: seq<Widget>,
              ghost s: Trail)
    requires Group(ws) && State(s, l, src, ws) && l < |s.q| == r <= q.Length && s.d[r - 1] <= s.d[l] + 1
    requires q.Length == MAXWIDGETS && q[..r] == s.q && w == s.q[l] && v in w.list && v !in s.q
    modifies q, v`from
    ensures State(Push(s, l, v), l, src, ws) && r < q.Length && q[..r + 1] == Push(s, l, v).q
  {
    PushKeeps(s, l, v, src, ws);
    Enqueue(q, l, r, w, v, ws, s);
  }

  /** Look at connection i of entry l. */
  method Visit(q: array<Widget>, ghost l: nat, r0: nat, w: Widget, i: nat, src: Widget, ghost ws: seq<Widget>,
               ghost s0: Trail)
      returns (r: nat, ghost s: Trail)
    requires q.Length == MAXWIDGETS && l < r0 == |s0.q| <= MAXWIDGETS && q[..r0] == s0.q
    requires Group(ws) && State(s0, l, src, ws) && w == s0.q[l] && w in ws && i < |w.list| && Scanned(s0, l, w.list, i)
    modifies q, (set w | w in ws)`from
    ensures l < r == |s.q| <= MAXWIDGETS && q[..r] == s.q && s.q[l] == w
    ensures State(s, l, src, ws) && Scanned(s, l, w.list, i + 1)
  {
    var v := w.list[i];
    assert v != null ==> v in ws;
    if v != null && v.from == null {
      ScannedNext(s0, l, w.list, i, v, src);
      Meet(q, l, r0, w, v, src, ws, s0);
      return r0 + 1, Push(s0, l, v);
    }
    ScannedSame(s0, l, w.list, i, src);
    return r0, s0;
  }

  /** Entries still to expand are at most one further than the next one. */
  ghost predicate Near(s: Trail, l: nat) {
    |s.q| == |s.d| && (l < |s.q| ==> s.d[|s.q| - 1] <= s.d[l] + 1)
  }

  lemma NearNext(s: Trail, l: nat, src: Widget)
    requires Ordered(s, src) && l < |s.q| && s.d[|s.q| - 1] <= s.d[l] + 1
    ensures Near(s, l + 1)
  {}

  /** Expand entry l of the queue: the inner loop of findpath. */
  method Expand(q: array<Widget>, l: nat, r0: nat, src: Widget, ghost ws: seq<Widget>, ghost s0: Trail)
      returns (r: nat, ghost s: Trail)
    requires q.Length == MAXWIDGETS && l < r0 == |s0.q| <= MAXWIDGETS && q[..r0] == s0.q
    requires Group(ws) && State(s0, l, src, ws) && s0.q[l].kind != AOUT && Near(s0, l)
    modifies q, (set w | w in ws)`from
    ensures l < r == |s.q| <= MAXWIDGETS && q[..r] == s.q && State(s, l + 1, src, ws)
    ensures Near(s, l + 1)
  {
    r, s := r0, s0;
    var w := q[l];
    assert w in ws;
    var i := 0;
    while i < |w.list|
      invariant l < r == |s.q| <= MAXWIDGETS && i <= |w.list| && q[..r] == s.q && w == s.q[l]
      invariant State(s, l, src, ws) && Scanned(s, l, w.list, i)
    {
      r, s := Visit(q, l, r, w, i, src, ws, s);
      i := i + 1;
    }
    EntryDone(s, l, src, ws);
    NearNext(s, l, src);
  }

  ghost predicate NoRepeat(p: seq<Widget>) {
    forall i, j :: 0 <= i < j < |p| ==> p[i] != p[j]
  }

  lemma {:induction false} TraceAt(s: Trail, src: Widget, j: nat, i: nat) returns (k: nat)
    requires Ordered(s, src) && j < |s.q| && i < |Trace(s, j)|
    ensures |Trace(s, j)| == s.d[j] + 1 && k < |s.q| && Trace(s, j)[i] == s.q[k] && s.d[k] == i
  {
    if j == 0 {
      k := 0;
    } else if i < |Trace(s, s.par[j])| {
      k := TraceAt(s, src, s.par[j], i);
    } else {
      var unused := TraceAt(s, src, s.par[j], 0);
      k := j;
    }
  }

  lemma TraceDistinct(s: Trail, src: Widget, j: nat)
    requires Ordered(s, src) && j < |s.q|
    ensures NoRepeat(Trace(s, j))
  {
    var p := Trace(s, j);
    forall a, b | 0 <= a < b < |p|
      ensures p[a] != p[b]
    {
      var x := TraceAt(s, src, j, a);
      var y := TraceAt(s, src, j, b);
    }
  }

  /** What findpath promises of the converter found and the way to it. */
  ghost predicate Nearest(found: Widget, path: seq<Widget>, src: Widget, ws: seq<Widget>)
    reads (set w | w in ws)`list, (set w | w in ws)`kind, (set w | w in ws)`from
  {
    && Reaches(path, src, ws) && path[|path| - 1] == found && Traced(path, ws) && NoRepeat(path)
    && forall p :: Reaches(p, src, ws) ==> |path| <= |p|
  }

  lemma WalkMisses(s: Trail, l: nat, src: Widget, ws: seq<Widget>, p: seq<Widget>)
    requires Group(ws) && Shape(s, src, ws) && 0 < l <= |s.q| && Expanded(s, l, ws)
    requires Path(p, ws) && p[0] == src && (l < |s.q| ==> |p| - 1 < s.d[l])
    ensures p[|p| - 1].kind != AOUT
  {
    var j := WalkStaysExpanded(s, l, src, ws, p);
    assert Done(s, s.q[j], s.d[j]);
  }

  lemma FirstIsNearest(s: Trail, l: nat, src: Widget, ws: seq<Widget>)
    requires Group(ws) && State(s, l, src, ws) && l < |s.q| && s.q[l] in ws && s.q[l].kind == AOUT
    ensures Nearest(s.q[l], Trace(s, l), src, ws)
  {
    TraceIsPath(s, src, ws, l);
    TraceDistinct(s, src, l);
    forall p | Reaches(p, src, ws)
      ensures |Trace(s, l)| <= |p|
    {
      if |p| - 1 < s.d[l] {
        WalkMisses(s, l, src, ws, p);
      }
    }
  }

  lemma NoneReached(s: Trail, src: Widget, ws: seq<Widget>)
    requires Group(ws) && State(s, |s.q|, src, ws)
    ensures forall p :: !Reaches(p, src, ws)
  {
    forall p: seq<Widget> | Path(p, ws) && p[0] == src
      ensures p[|p| - 1].kind != AOUT
    {
      WalkMisses(s, |s.q|, src, ws, p);
    }
  }

  /** The outer loop of findpath: it stops at a converter or runs dry. */
  method Search(q: array<Widget>, src: Widget, ghost ws: seq<Widget>, ghost s0: Trail)
      returns (w: Widget, ghost l: nat, ghost s: Trail)
    requires q.Length == MAXWIDGETS && s0.q == [src] == q[..1] && Group(ws) && State(s0, 0, src, ws) && Near(s0, 0)
    modifies q, (set w | w in ws)`from
    ensures State(s, l, src, ws) && if w.kind == AOUT then l < |s.q| && w == s.q[l] else l == |s.q|
  {
    s := s0;
    var i: nat, r: nat := 0, 1;
    w := src;
    while i < r
      invariant i <= r == |s.q| <= MAXWIDGETS && q[..r] == s.q && State(s, i, src, ws) && Near(s, i)
      invariant i > 0 ==> w.kind != AOUT
      decreases MAXWIDGETS - i
    {
      w := q[i];
      if w.kind == AOUT {
        break;
      }
      r, s := Expand(q, i, r, src, ws, s);
      i := i + 1;
    }
    l := i;
  }

  /** The search from cleared marks. */
  method Explore(first: Widget?, src: Widget, ghost ws: seq<Widget>) returns (w: Widget, ghost l: nat, ghost s: Trail)
    requires Linked(first, ws) && Group(ws) && src in ws
    modifies (set w | w in ws)`from
    ensures State(s, l, src, ws) && if w.kind == AOUT then l < |s.q| && w == s.q[l] else l == |s.q|
  {
    s := Start(first, src, ws);
    var q := new Widget[MAXWIDGETS](_ => src);
    w, l, s := Search(q, src, ws, s);
  }

  /** findpath: a converter nearest to src, with the from links leading back to
      src along a shortest walk, or null when none can be reached. */
  method FindPath(first: Widget?, src: Widget, ghost ws: seq<Widget>) returns (found: Widget?, ghost path: seq<Widget>)
    requires Linked(first, ws) && Group(ws) && src in ws
    modifies (set w | w in ws)`from
    ensures found == null <==> forall p :: !Reaches(p, src, ws)
    ensures found != null ==> Nearest(found, path, src, ws)
  {
    var w, l, s := Explore(first, src, ws);
    if w.kind != AOUT {
      NoneReached(s, src, ws);
      return null, [];
    }
    FirstIsNearest(s, l, src, ws);
    path := Trace(s, l);
    assert Reaches(path, src, ws);
    return w, path;
  }

  // ---------------------------------------------------------------- connectpath

  datatype Command =
    | OutAmp(w: Widget) | InAmp(w: Widget, from: Widget) | SetConn(w: Widget, index: nat) | PinOut(w: Widget)

  function First(list: seq<Widget?>, w: Widget): (i: nat)
    requires w in list
    ensures i < |list| && list[i] == w && forall j :: 0 <= j < i ==> list[j] != w
  {
    if list[0] == w then 0 else 1 + First(list[1..], w)
  }

  /** Wire the hop from v to w: v's input must select w. */
  ghost function Hop(v: Widget, w: Widget): (c: seq<Command>)
    requires w in v.list
    reads v`list
  {
    [OutAmp(w), InAmp(v, w)] + if |v.list| == 1 then [] else [SetConn(v, First(v.list, w))]
  }

  /** The commands that wire a walk, from its far end. */
  ghost function Wiring(p: seq<Widget>, ws: seq<Widget>): seq<Command>
    requires Path(p, ws)
    reads (set w | w in ws)`list
    decreases |p|
  {
    var n := |p| - 1;
    if n == 0 then [OutAmp(p[0]), PinOut(p[0])] else Hop(p[n - 1], p[n]) + Wiring(p[..n], ws)
  }

  method WireHop(v: Widget, w: Widget) returns (cmds: seq<Command>)
    requires w in v.list
    ensures cmds == Hop(v, w)
  {
    cmds := [OutAmp(w), InAmp(v, w)];
    if |v.list| == 1 {
      return;
    }
    var i := 0;
    while v.list[i] != w
      invariant i <= First(v.list, w)
      decreases |v.list| - i
    {
      i := i + 1;
    }
    cmds := cmds + [SetConn(v, i)];
  }

  lemma WiringStep(p: seq<Widget>, k: nat, ws: seq<Widget>)
    requires Path(p, ws) && Traced(p, ws) && 0 < k < |p|
    ensures p[k].from == p[k - 1] && Path(p[..k + 1], ws) && Path(p[..k], ws) && p[k] in p[k - 1].list
    ensures Wiring(p[..k + 1], ws) == Hop(p[k - 1], p[k]) + Wiring(p[..k], ws)
  {
    assert p[..k + 1][..k] == p[..k];
  }

  /** connectpath: following the from links from dst wires exactly the walk found. */
  method ConnectPath(src: Widget, dst: Widget, ghost path: seq<Widget>, ghost ws: seq<Widget>, ghost c: Codec)
      returns (cmds: seq<Command>)
    requires Path(path, ws) && Traced(path, ws) && NoRepeat(path) && path[0] == src && path[|path| - 1] == dst
    ensures cmds == Wiring(path, ws) && Carries(ObeyAll(c, cmds), path, ws)
  {
    cmds := WireAll(src, dst, path, ws);
    WiringCarries(c, path, ws);
  }

  /** Its loop. */
  method WireAll(src: Widget, dst: Widget, ghost path: seq<Widget>, ghost ws: seq<Widget>) returns (cmds: seq<Command>)
    requires Path(path, ws) && Traced(path, ws) && NoRepeat(path) && path[0] == src && path[|path| - 1] == dst
    ensures cmds == Wiring(path, ws)
  {
    cmds := [];
    var w := dst;
    ghost var k: nat := |path| - 1;
    assert path[..k + 1] == path;
    ghost var whole := Wiring(path, ws);
    ghost var rest := whole;
    while w != src
      invariant k < |path| && w == path[k] && cmds + rest == whole
      invariant Path(path[..k + 1], ws) && rest == Wiring(path[..k + 1], ws)
      decreases k
    {
      var v := w.from;
      WiringStep(path, k, ws);
      var hop := WireHop(v, w);
      rest := Wiring(path[..k], ws);
      assert cmds + (hop + rest) == (cmds + hop) + rest;
      cmds := cmds + hop;
      w := v;
      k := k - 1;
    }
    OnlySrc(path, k, src);
    cmds := cmds + [OutAmp(src), PinOut(src)];
  }

  lemma OnlySrc(p: seq<Widget>, k: nat, src: Widget)
    requires NoRepeat(p) && k < |p| && p[0] == src == p[k]
    ensures k == 0 && p[..k + 1] == [src]
  {}

  // ---------------------------------------------------------------- what the commands do

  /** What the codec has been told: the connection each widget selects, the
      outputs and inputs that are not muted, and the pins that are outputs. */
  datatype Codec = Codec(conn: map<Widget, nat>, outs: set<Widget>, ins: set<(Widget, Widget)>, pins: set<Widget>)

  function Obey(c: Codec, k: Command): Codec {
    match k
    case OutAmp(w) => c.(outs := c.outs + {w})
    case InAmp(w, from) => c.(ins := c.ins + {(w, from)})
    case SetConn(w, i) => c.(conn := c.conn[w := i])
    case PinOut(w) => c.(pins := c.pins + {w})
  }

  function ObeyAll(c: Codec, cmds: seq<Command>): Codec
    decreases cmds
  {
    if cmds == [] then c else ObeyAll(Obey(c, cmds[0]), cmds[1..])
  }

  lemma {:induction false} ObeyConcat(c: Codec, a: seq<Command>, b: seq<Command>)
    ensures ObeyAll(c, a + b) == ObeyAll(ObeyAll(c, a), b)
    decreases a
  {
    if a == [] {
      assert a + b == b;
    } else {
      assert (a + b)[1..] == a[1..] + b;
      ObeyConcat(Obey(c, a[0]), a[1..], b);
    }
  }

  /** Where widget v takes its signal from: its only connection, or the selected one. */
  function Source(c: Codec, v: Widget): Widget?
    reads v`list
  {
    if |v.list| == 1 then v.list[0]
    else if v in c.conn && c.conn[v] < |v.list| then v.list[c.conn[v]] else null
  }

  /** The signal comes along p from the converter at its end to the pin at its start. */
  ghost predicate Carries(c: Codec, p: seq<Widget>, ws: seq<Widget>)
    requires forall i :: 0 <= i < |p| ==> p[i] in ws
    reads (set w | w in ws)`list
  {
    && p != [] && p[0] in c.pins && (forall i :: 0 <= i < |p| ==> p[i] in c.outs)
    && forall i :: 0 < i < |p| ==> Source(c, p[i - 1]) == p[i] && (p[i - 1], p[i]) in c.ins
  }

  /** d unmutes what c does, and selects what c does at widget w. */
  ghost predicate Leaves(d: Codec, c: Codec, w: Widget) {
    && c.outs <= d.outs && c.ins <= d.ins && c.pins <= d.pins
    && (w in d.conn <==> w in c.conn) && (w in c.conn ==> d.conn[w] == c.conn[w])
  }

  lemma ObeyTwo(c: Codec, j: Command, k: Command)
    ensures ObeyAll(c, [j]) == Obey(c, j) && ObeyAll(c, [j, k]) == Obey(Obey(c, j), k)
  {
    assert [j][1..] == [] && [j, k][1..] == [k] && [k][1..] == [];
    assert ObeyAll(Obey(c, j), [k]) == ObeyAll(Obey(Obey(c, j), k), []);
  }

  lemma HopObeyed(c: Codec, v: Widget, w: Widget)
    requires w in v.list
    ensures var d := ObeyAll(c, Hop(v, w));
            && Source(d, v) == w && w in d.outs && (v, w) in d.ins
            && forall u: Widget :: u != v ==> Leaves(d, c, u)
  {
    ObeyTwo(c, OutAmp(w), InAmp(v, w));
    var two := [OutAmp(w), InAmp(v, w)];
    if |v.list| == 1 {
      assert two + [] == two;
    } else {
      var select := SetConn(v, First(v.list, w));
      ObeyConcat(c, two, [select]);
      ObeyTwo(ObeyAll(c, two), select, select);
      assert Hop(v, w) == two + [select];
    }
  }

  /** Wiring a walk leaves alone what the other widgets and the last one select. */
  lemma {:induction false} WiringLeaves(c: Codec, p: seq<Widget>, ws: seq<Widget>, u: Widget)
    requires Path(p, ws) && u !in p[..|p| - 1]
    ensures Leaves(ObeyAll(c, Wiring(p, ws)), c, u)
    decreases |p|
  {
    var n := |p| - 1;
    if n == 0 {
      ObeyTwo(c, OutAmp(p[0]), PinOut(p[0]));
    } else {
      var h, front := Hop(p[n - 1], p[n]), p[..n];
      assert p[n - 1] == front[n - 1] && front[n - 1] in front;
      assert forall x :: x in front[..n - 1] ==> x in front;
      HopObeyed(c, p[n - 1], p[n]);
      assert u != p[n - 1] && u !in front[..n - 1] && Leaves(ObeyAll(c, h), c, u);
      WiringLeaves(ObeyAll(c, h), front, ws, u);
      ObeyConcat(c, h, Wiring(front, ws));
      assert Wiring(p, ws) == h + Wiring(front, ws);
    }
  }

  lemma OneMore(c: Codec, d: Codec, p: seq<Widget>, ws: seq<Widget>)
    requires |p| > 1 && (forall i :: 0 <= i < |p| ==> p[i] in ws)
    requires Carries(d, p[..|p| - 1], ws) && Leaves(d, c, p[|p| - 2])
    requires Source(c, p[|p| - 2]) == p[|p| - 1] && p[|p| - 1] in c.outs && (p[|p| - 2], p[|p| - 1]) in c.ins
    ensures Carries(d, p, ws)
  {
    var n := |p| - 1;
    var front := p[..n];
    forall i | 0 < i < |p|
      ensures Source(d, p[i - 1]) == p[i] && (p[i - 1], p[i]) in d.ins
    {
      if i < n {
        assert front[i] == p[i] && front[i - 1] == p[i - 1];
      }
    }
    forall i | 0 <= i < |p|
      ensures p[i] in d.outs
    {
      assert i < n ==> front[i] == p[i];
    }
  }

  /** Obeying the wiring of a walk, from whatever the codec was told before, makes
      every widget of it take its signal from the next one, open all the way. */
  lemma {:induction false} WiringCarries(c: Codec, p: seq<Widget>, ws: seq<Widget>)
    requires Path(p, ws) && NoRepeat(p)
    ensures Carries(ObeyAll(c, Wiring(p, ws)), p, ws)
    decreases |p|
  {
    var n := |p| - 1;
    if n == 0 {
      ObeyTwo(c, OutAmp(p[0]), PinOut(p[0]));
    } else {
      var h, front := Hop(p[n - 1], p[n]), p[..n];
      var c1 := ObeyAll(c, h);
      HopObeyed(c, p[n - 1], p[n]);
      WiringCarries(c1, front, ws);
      NotBefore(p, n);
      WiringLeaves(c1, front, ws, p[n - 1]);
      ObeyConcat(c, h, Wiring(front, ws));
      OneMore(c1, ObeyAll(c1, Wiring(front, ws)), p, ws);
    }
  }

  lemma NotBefore(p: seq<Widget>, n: nat)
    requires NoRepeat(p) && 0 < n == |p| - 1
    ensures p[n - 1] !in p[..n][..n - 1] && NoRepeat(p[..n])
  {}
}
