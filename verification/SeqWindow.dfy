/** The sliding bitmap that rejects replayed sequence numbers. */
module SeqWindow {

  const SPACE := 0x1_0000_0000
  const WIDTH := 64

  // ---------------------------------------------------------------- the code as a function

  /** struct Window: bit 63-i of the word is w[i]. */
  datatype Win = Win(w0set: bool, w0: nat, w: seq<bool>)

  function Fresh(): (v: Win)
    ensures |v.w| == WIDTH && forall i :: 0 <= i < WIDTH ==> !v.w[i]
  {
    Win(false, 0, seq(WIDTH, _ => false))
  }

  ghost predicate WinOk(v: Win) {
    |v.w| == WIDTH && v.w0 < SPACE
  }

  function Low(n: int): (r: nat)
    ensures r < SPACE
  {
    n % SPACE
  }

  function Ones(w: seq<bool>): nat {
    if w == [] then 0 else (if w[0] then 1 else 0) + Ones(w[1..])
  }

  lemma {:induction false} OnesSnoc(w: seq<bool>)
    ensures Ones(w + [false]) == Ones(w)
  {
    if w == [] {
      assert [false][1..] == [];
    } else {
      assert (w + [false])[1..] == w[1..] + [false];
      OnesSnoc(w[1..]);
    }
  }

  /** The shifting loop. */
  function Slide(w0: nat, w: seq<bool>, delta: nat): (v: Win)
    ensures |v.w| == |w|
    decreases Ones(w), delta
  {
    if w != [] && (w[0] || 32 <= delta <= 63) then
      OnesSnoc(w[1..]);
      Slide(Low(w0 + 1), w[1..] + [false], Low(delta - 1))
    else Win(true, w0, w)
  }

  /** ckwindow's answer, and the window it leaves. */
  function Ck(v: Win, seqno: nat): (r: (bool, Win))
    requires |v.w| == WIDTH
    ensures |r.1.w| == WIDTH
  {
    var w0 := if v.w0set then v.w0 else Low(seqno - 1);
    var delta := Low(seqno - w0 - 1);
    if delta > 63 || v.w[delta] then (false, Win(true, w0, v.w))
    else (true, Slide(w0, v.w[delta := true], delta))
  }

  lemma SlideTurn(w0: nat, w: seq<bool>, delta: nat)
    requires w != [] && (w[0] || 32 <= delta <= 63)
    ensures Slide(w0, w, delta) == Slide(Low(w0 + 1), w[1..] + [false], Low(delta - 1))
    ensures Ones(w[1..] + [false]) == if w[0] then Ones(w) - 1 else Ones(w)
    ensures w[0] || Low(delta - 1) < delta
  {
    OnesSnoc(w[1..]);
  }

  class Window {
    var w0set: bool
    var w0: nat
    var w: seq<bool>

    ghost function View(): Win
      reads this
    {
      Win(w0set, w0, w)
    }

    constructor ()
      ensures View() == Fresh()
    {
      w0set, w0, w := false, 0, seq(WIDTH, _ => false);
    }

    /** ckwindow. */
    method CkWindow(seqno: nat) returns (ok: bool)
      requires |w| == WIDTH
      modifies this
      ensures (ok, View()) == Ck(old(View()), seqno)
    {
      if !w0set {
        w0set := true;
        w0 := Low(seqno - 1);
      }
      var delta: int := Low(seqno - w0 - 1);
      if delta > 63 || w[delta] {
        return false;
      }
      w := w[delta := true];
      Shift(delta);
      ok := true;
    }

    /** Its shifting loop. */
    method Shift(from: nat)
      requires |w| == WIDTH && w0set
      modifies this
      ensures View() == Slide(old(w0), old(w), from)
    {
      var delta: nat := from;
      while w[0] || 32 <= delta <= 63
        invariant |w| == WIDTH && w0set && Slide(w0, w, delta) == Slide(old(w0), old(w), from)
        decreases Ones(w), delta
      {
        SlideTurn(w0, w, delta);
        w0 := Low(w0 + 1);
        w := w[1..] + [false];
        delta := Low(delta - 1);
      }
    }
  }

  // ---------------------------------------------------------------- what it means

  /** Once started, numbers up to base are settled, and accepted holds every number
      taken as accepted so far. */
  datatype Abs = Abs(started: bool, base: int, accepted: set<int>)

  /** Bit i of w says whether base+1+i was accepted, and nothing beyond was. */
  ghost predicate Pictured(w: seq<bool>, a: Abs) {
    && (forall i :: 0 <= i < |w| ==> (w[i] <==> a.base + 1 + i in a.accepted))
    && forall x :: x in a.accepted ==> x <= a.base + |w|
  }

  /** The window v shows the state a; its first bit is clear between calls. */
  ghost predicate Shows(v: Win, a: Abs) {
    && WinOk(v) && v.w0set == a.started
    && if a.started then v.w0 == Low(a.base) && Pictured(v.w, a) && !v.w[0]
       else (forall i :: 0 <= i < WIDTH ==> !v.w[i]) && a.accepted == {}
  }

  /** Should n be accepted? */
  ghost predicate Acceptable(a: Abs, n: int) {
    !a.started || (a.base < n <= a.base + WIDTH && n !in a.accepted)
  }

  /** The number that the low 32 bits of n are read as. */
  function Reading(a: Abs, n: int): int {
    if a.started then a.base + 1 + Low(n - a.base - 1) else n
  }

  function Max(x: int, y: int): int {
    if x < y then y else x
  }

  /** Accepting n moves the base over numbers accepted without a gap, and to
      within 32 below n; rejecting it changes nothing. */
  ghost predicate Trans(a: Abs, n: int, ok: bool, b: Abs) {
    && ok == Acceptable(a, n) && b.started
    && if !ok then b == a
       else
         var from := Max(if a.started then a.base else n - 1, n - 32);
         && b.accepted == a.accepted + {n} && b.base >= from && b.base + 1 !in b.accepted
         && forall x :: from < x <= b.base ==> x in b.accepted
  }

  // Remainders

  lemma LowStep(n: int)
    ensures Low(Low(n) + 1) == Low(n + 1) && Low(Low(n) - 1) == Low(n - 1)
  {}

  lemma LowDiff(x: int, y: int)
    ensures Low(Low(x) - Low(y) - 1) == Low(x - y - 1)
  {}

  lemma LowReading(n: int, base: int)
    ensures Low(base + 1 + Low(n - base - 1)) == Low(n)
  {}

  lemma LowSmall(d: int)
    requires -SPACE <= d < SPACE
    ensures Low(d) == if d < 0 then d + SPACE else d
  {}

  /** The shifting loop moves the base as far as it should; n is the number whose
      bit was just set. */
  lemma {:induction false} SlideMeaning(w0: nat, w: seq<bool>, delta: nat, a: Abs, n: int, limit: int)
      returns (base: int)
    requires |w| == WIDTH && w0 == Low(a.base) && Pictured(w, a) && a.started && n in a.accepted
    requires a.base <= limit < n + WIDTH && n <= a.base + WIDTH && delta == Low(n - a.base - 1)
    requires forall x :: x in a.accepted ==> x <= limit
    ensures Shows(Slide(w0, w, delta), a.(base := base))
    ensures base >= Max(a.base, n - 32) && base + 1 !in a.accepted
    ensures forall x :: Max(a.base, n - 32) < x <= base ==> x in a.accepted
    decreases Ones(w), delta
  {
    LowSmall(n - a.base - 1);
    if w[0] || 32 <= delta <= 63 {
      assert w[0] ==> a.base + 1 in a.accepted;
      var b := a.(base := a.base + 1);
      LowStep(a.base);
      LowStep(n - a.base - 1);
      SlideTurn(w0, w, delta);
      ShiftPictured(w, a);
      base := SlideMeaning(Low(w0 + 1), w[1..] + [false], Low(delta - 1), b, n, limit);
    } else {
      base := a.base;
      assert a.(base := base) == a;
    }
  }

  lemma ShiftPictured(w: seq<bool>, a: Abs)
    requires |w| > 0 && Pictured(w, a)
    ensures Pictured(w[1..] + [false], a.(base := a.base + 1))
  {
    var b := a.(base := a.base + 1);
    var w' := w[1..] + [false];
    forall i | 0 <= i < |w'|
      ensures w'[i] <==> b.base + 1 + i in b.accepted
    {
      if i < |w| - 1 {
        assert w'[i] == w[i + 1];
      }
    }
  }

  /** Whatever number comes, ckwindow treats it as its low 32 bits read: as the one
      number above the base with those bits. */
  lemma CkMeaning(v: Win, a: Abs, n: int) returns (b: Abs)
    requires Shows(v, a)
    ensures Shows(Ck(v, Low(n)).1, b) && Trans(a, Reading(a, n), Ck(v, Low(n)).0, b)
  {
    if a.started {
      LowDiff(n, a.base);
      b := CkStarted(v, a, Reading(a, n));
      LowReading(n, a.base);
    } else {
      LowStep(n);
      LowDiff(n, n - 1);
      b := CkStarted(Win(true, Low(n - 1), v.w), Abs(true, n - 1, {}), n);
    }
  }

  lemma CkStarted(v: Win, a: Abs, n: int) returns (b: Abs)
    requires Shows(v, a) && a.started && a.base < n <= a.base + SPACE
    ensures Shows(Ck(v, Low(n)).1, b) && Trans(a, n, Ck(v, Low(n)).0, b)
  {
    LowDiff(n, a.base);
    LowSmall(n - a.base - 1);
    var delta := n - a.base - 1;
    if delta > 63 || v.w[delta] {
      b := a;
    } else {
      var c := a.(accepted := a.accepted + {n});
      assert Pictured(v.w[delta := true], c);
      var base := SlideMeaning(v.w0, v.w[delta := true], delta, c, n, a.base + WIDTH);
      b := c.(base := base);
    }
  }

  // ---------------------------------------------------------------- exactly when the answer is right

  lemma ReadAsItself(a: Abs, n: int)
    requires a.started
    ensures Reading(a, n) == n <==> a.base < n <= a.base + SPACE
  {
    var d := n - a.base - 1;
    assert Low(d) == d <==> 0 <= d < SPACE;
  }

  /** For every number and every started window, ckwindow's answer is right if and
      only if the number reads as itself or its reading is refused. */
  lemma AnswerRightIff(v: Win, a: Abs, n: int)
    requires Shows(v, a) && a.started
    ensures (Ck(v, Low(n)).0 <==> Acceptable(a, n)) <==>
              a.base < n <= a.base + SPACE || Reading(a, n) > a.base + WIDTH || Reading(a, n) in a.accepted
  {
    var b := CkMeaning(v, a, n);
    ReadAsItself(a, n);
  }

  /** So within one sequence space of the base it is right except for an old number
      whose like, one sequence space on, is in the window and not yet accepted. */
  lemma AnswerRightNearby(v: Win, a: Abs, n: int)
    requires Shows(v, a) && a.started && a.base - SPACE < n <= a.base + SPACE
    ensures (Ck(v, Low(n)).0 <==> Acceptable(a, n)) <==> n > a.base + WIDTH - SPACE || n + SPACE in a.accepted
  {
    AnswerRightIff(v, a, n);
    LowSmall(n - a.base - 1);
    if n <= a.base {
      assert Reading(a, n) == n + SPACE;
    } else {
      assert n + SPACE !in a.accepted;
    }
  }

  // ---------------------------------------------------------------- runs

  /** The windows over the numbers ns, with the answers oks. */
  ghost predicate IsRun(vs: seq<Win>, ns: seq<int>, oks: seq<bool>) {
    && |vs| == |ns| + 1 && |oks| == |ns| && vs[0] == Fresh()
    && forall k :: 0 <= k < |ns| ==> |vs[k].w| == WIDTH && (oks[k], vs[k + 1]) == Ck(vs[k], Low(ns[k]))
  }

  /** The numbers of a run lie within the sequence space less one window. */
  ghost predicate Spans(ns: seq<int>, lo: int) {
    forall k :: 0 <= k < |ns| ==> lo <= ns[k] < lo + SPACE - WIDTH
  }

  /** x is among the first k numbers and was accepted. */
  ghost predicate Taken(ns: seq<int>, oks: seq<bool>, k: nat, x: int)
    requires k <= |ns| == |oks|
  {
    exists i :: 0 <= i < k && oks[i] && ns[i] == x
  }

  lemma NearRead(a: Abs, n: int)
    requires a.started && a.base + WIDTH - SPACE < n <= a.base + SPACE
    ensures if n > a.base then Reading(a, n) == n else Reading(a, n) > a.base + WIDTH
  {
    ReadAsItself(a, n);
    LowSmall(n - a.base - 1);
  }

  /** One step of a run: what is accepted is the number itself. */
  lemma RunStep(p: Abs, n: int, ok: bool, a: Abs, lo: int)
    requires p.started ==> lo - 1 <= p.base < lo + SPACE - WIDTH
    requires forall x :: x in p.accepted ==> x < lo + SPACE - WIDTH
    requires lo <= n < lo + SPACE - WIDTH && Trans(p, Reading(p, n), ok, a)
    ensures lo - 1 <= a.base < lo + SPACE - WIDTH && a.accepted == if ok then p.accepted + {n} else p.accepted
    ensures ok ==> p.started ==> p.base < n <= p.base + WIDTH && n !in p.accepted
    ensures !ok ==> p.started && !(p.base < n <= p.base + WIDTH && n !in p.accepted)
  {
    if p.started {
      NearRead(p, n);
    }
    if ok {
      assert Reading(p, n) == n;
      var from := Max(if p.started then p.base else n - 1, n - 32);
      assert a.base > from ==> a.base in a.accepted;
    }
  }

  /** What the window knows after k numbers. */
  lemma {:induction false} RunState(vs: seq<Win>, ns: seq<int>, oks: seq<bool>, lo: int, k: nat) returns (a: Abs)
    requires IsRun(vs, ns, oks) && Spans(ns, lo) && k <= |ns|
    ensures Shows(vs[k], a) && a.started == (k > 0) && (a.started ==> lo - 1 <= a.base < lo + SPACE - WIDTH)
    ensures forall x :: x in a.accepted <==> Taken(ns, oks, k, x)
  {
    if k == 0 {
      a := Abs(false, 0, {});
    } else {
      var p := RunState(vs, ns, oks, lo, k - 1);
      assert (oks[k - 1], vs[k]) == Ck(vs[k - 1], Low(ns[k - 1]));
      a := CkMeaning(vs[k - 1], p, ns[k - 1]);
      assert forall x :: x in p.accepted ==> x < lo + SPACE - WIDTH;
      RunStep(p, ns[k - 1], oks[k - 1], a, lo);
      forall x
        ensures x in a.accepted <==> Taken(ns, oks, k, x)
      {
        TakenStep(ns, oks, k, x);
      }
    }
  }

  lemma TakenStep(ns: seq<int>, oks: seq<bool>, k: nat, x: int)
    requires 0 < k <= |ns| == |oks|
    ensures Taken(ns, oks, k, x) <==> Taken(ns, oks, k - 1, x) || (oks[k - 1] && ns[k - 1] == x)
  {}

  /** In every run over numbers less than the sequence space apart, a number is
      accepted exactly when it lies in the window and has not been accepted, so no
      number is accepted twice. */
  lemma AcceptedOnce(vs: seq<Win>, ns: seq<int>, oks: seq<bool>, lo: int, j: nat) returns (a: Abs)
    requires IsRun(vs, ns, oks) && Spans(ns, lo) && 0 < j < |ns|
    ensures Shows(vs[j], a) && forall x :: x in a.accepted <==> Taken(ns, oks, j, x)
    ensures oks[j] <==> a.base < ns[j] <= a.base + WIDTH && !Taken(ns, oks, j, ns[j])
    ensures forall i :: 0 <= i < j && oks[i] && oks[j] ==> ns[i] != ns[j]
  {
    a := RunState(vs, ns, oks, lo, j);
    assert (oks[j], vs[j + 1]) == Ck(vs[j], Low(ns[j]));
    var b := CkMeaning(vs[j], a, ns[j]);
    NearRead(a, ns[j]);
    assert forall x :: x in a.accepted ==> Taken(ns, oks, j, x);
  }

  // ---------------------------------------------------------------- a replay accepted

  /** The window after k consecutive numbers from n on. */
  function Streak(n: int, k: nat): (v: Win)
    ensures |v.w| == WIDTH
  {
    if k == 0 then Fresh()
    else
      Ck(Streak(n, k - 1), Low(n + k - 1)).1
  }

  lemma SlideOne(w0: nat, w: seq<bool>)
    requires |w| == WIDTH && forall i :: 0 <= i < WIDTH ==> !w[i]
    ensures Slide(w0, w[0 := true], 0) == Win(true, Low(w0 + 1), w)
  {
    var u := w[0 := true];
    SlideTurn(w0, u, 0);
    assert u[1..] + [false] == w;
  }

  /** A window with no bit set accepts the next number, and is left with none set. */
  lemma NextAccepted(x: int)
    ensures Ck(Win(true, Low(x - 1), Fresh().w), Low(x)) == (true, Win(true, Low(x), Fresh().w))
  {
    var w := Fresh().w;
    LowDiff(x, x - 1);
    LowStep(x - 1);
    SlideOne(Low(x - 1), w);
  }

  lemma StreakStep(n: int, k: nat)
    requires k > 0 && Streak(n, k) == Win(true, Low(n + k - 1), Fresh().w)
    ensures Ck(Streak(n, k), Low(n + k)) == (true, Win(true, Low(n + k), Fresh().w))
  {
    NextAccepted(n + k);
  }

  /** The streak leaves a window with no bit set. */
  lemma {:induction false} StreakLeaves(n: int, k: nat)
    requires k > 0
    ensures Streak(n, k) == Win(true, Low(n + k - 1), Fresh().w)
  {
    if k == 1 {
      FirstAccepted(n);
    } else {
      StreakLeaves(n, k - 1);
      StreakStep(n, k - 1);
    }
  }

  /** Every number of the streak is accepted. */
  lemma StreakAccepted(n: int, k: nat)
    ensures Ck(Streak(n, k), Low(n + k)).0
  {
    if k == 0 {
      FirstAccepted(n);
    } else {
      StreakLeaves(n, k);
      StreakStep(n, k);
    }
  }

  lemma FirstAccepted(x: int)
    ensures Ck(Fresh(), Low(x)) == (true, Win(true, Low(x), Fresh().w))
  {
    LowStep(x);
    NextAccepted(x);
  }

  lemma EmptyAnswer(base: int, n: int)
    ensures Ck(Win(true, Low(base), Fresh().w), Low(n)).0 <==> Low(n - base - 1) < WIDTH
  {
    LowDiff(n, base);
  }

  lemma StreakAnswer(n: int, k: nat)
    requires k > 0
    ensures Ck(Streak(n, k), Low(n)).0 <==> Low(n - (n + k - 1) - 1) < WIDTH
  {
    StreakLeaves(n, k);
    EmptyAnswer(n + k - 1, n);
  }

  /** After k consecutive numbers, all accepted, the first of them is accepted a
      second time exactly from k = 2^32-63 on. */
  lemma ReplayAccepted(n: int, k: nat)
    requires 0 < k <= SPACE
    ensures forall i: nat :: i < k ==> Ck(Streak(n, i), Low(n + i)).0
    ensures Ck(Streak(n, k), Low(n)).0 <==> k >= SPACE - WIDTH + 1
  {
    StreakAnswer(n, k);
    WrappedInWindow(n, k);
    forall i: nat | i < k
      ensures Ck(Streak(n, i), Low(n + i)).0
    {
      StreakAccepted(n, i);
    }
  }

  lemma WrappedInWindow(n: int, k: nat)
    requires 0 < k <= SPACE
    ensures Low(n - (n + k - 1) - 1) < WIDTH <==> k >= SPACE - WIDTH + 1
  {
    var d: int := 0 - k;
    assert n - (n + k - 1) - 1 == d;
    LowSmall(d);
  }
}
