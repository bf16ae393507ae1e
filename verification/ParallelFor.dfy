/** kt_for's workers (deps/klib/kthread.c): each takes indices from its own counter, then
    steals from others', every taking being one fetch-and-add. The choice of a victim reads
    the counters without synchronisation, so any victim may be chosen. */
module ParallelFor {
  import opened Bits

  datatype Hand = Free | Holds(index: nat)

  /** Working through its own counter, stealing, or gone. */
  datatype Phase = Own | Steal | Exited

  datatype Worker = Worker(phase: Phase, hand: Hand)

  /** The counters, the workers, and how often each index has been executed. */
  datatype State = State(next: seq<nat>, workers: seq<Worker>, done: multiset<nat>)

  datatype Event = TakeOwn(w: nat) | TakeFrom(w: nat, victim: nat) | Execute(w: nat)

  predicate Enabled(s: State, e: Event) {
    e.w < |s.workers| && |s.next| == |s.workers| &&
    match e
    case TakeOwn(w) => s.workers[w] == Worker(Own, Free)
    case TakeFrom(w, v) => s.workers[w] == Worker(Steal, Free) && v < |s.next|
    case Execute(w) => s.workers[w].hand.Holds?
  }

  /** Takes from counter c; a taken index of n or more ends the worker's phase. */
  function Take(s: State, w: nat, c: nat, n: nat, over: Phase): State
    requires w < |s.workers| && c < |s.next|
  {
    var k := s.next[c];
    State(s.next[c := k + |s.next|],
          s.workers[w := if k >= n then Worker(over, Free) else s.workers[w].(hand := Holds(k))],
          s.done)
  }

  function Step(s: State, e: Event, n: nat): State
    requires Enabled(s, e)
  {
    match e
    case TakeOwn(w) => Take(s, w, w, n, Steal)
    case TakeFrom(w, v) => Take(s, w, v, n, Exited)
    case Execute(w) =>
      State(s.next, s.workers[w := s.workers[w].(hand := Free)], s.done + multiset{s.workers[w].hand.index})
  }

  function Start(threads: nat): State {
    State(seq(threads, c requires c >= 0 => c), seq(threads, _ => Worker(Own, Free)), multiset{})
  }

  ghost predicate Runs(s: State, es: seq<Event>, n: nat, s': State)
    decreases |es|
  {
    if es == [] then s' == s
    else Enabled(s, es[0]) && Runs(Step(s, es[0], n), es[1..], n, s')
  }

  // ------------------------------------------------------------ the invariant

  /** How many workers hold x. */
  ghost function Held(ws: seq<Worker>, x: nat): nat {
    if ws == [] then 0 else Held(ws[..|ws| - 1], x) + HeldBy(ws[|ws| - 1], x)
  }

  ghost function HeldBy(w: Worker, x: nat): nat { if w.hand == Holds(x) then 1 else 0 }

  lemma {:induction false} HeldUpdate(ws: seq<Worker>, i: nat, w: Worker, x: nat)
    requires i < |ws|
    ensures Held(ws[i := w], x) + HeldBy(ws[i], x) == Held(ws, x) + HeldBy(w, x)
  {
    hide HeldBy;
    var n := |ws| - 1;
    if i == n {
      assert ws[i := w][..n] == ws[..n];
    } else {
      assert ws[i := w][..n] == ws[..n][i := w];
      HeldUpdate(ws[..n], i, w, x);
    }
  }

  /** Index x has been taken: it lies below the counter of its residue class. */
  ghost predicate Taken(next: seq<nat>, x: nat)
    requires |next| > 0
  {
    x < next[x % |next|]
  }

  /** An index is executed or in hand once when it is taken, and never otherwise. */
  ghost predicate AccountedAt(s: State, n: nat, x: nat)
    requires |s.next| > 0
  {
    s.done[x] + Held(s.workers, x) == if x < n && Taken(s.next, x) then 1 else 0
  }

  ghost predicate Classes(next: seq<nat>) {
    forall c :: 0 <= c < |next| ==> next[c] % |next| == c
  }

  ghost predicate Inv(s: State, n: nat) {
    && |s.next| == |s.workers| > 0
    && Classes(s.next)
    && (forall x: nat :: AccountedAt(s, n, x))
    && (forall w :: 0 <= w < |s.workers| && s.workers[w].phase != Own ==> s.next[w] >= n)
    && (forall w :: 0 <= w < |s.workers| && s.workers[w].phase == Exited ==> s.workers[w].hand == Free)
  }

  lemma {:induction false} NoHands(ws: seq<Worker>, x: nat)
    requires forall w :: 0 <= w < |ws| ==> ws[w].hand == Free
    ensures Held(ws, x) == 0
  {
    if ws != [] { NoHands(ws[..|ws| - 1], x); }
  }

  lemma {:induction false} StartInv(threads: nat, n: nat)
    requires threads > 0
    ensures Inv(Start(threads), n)
  {
    var s := Start(threads);
    forall c | 0 <= c < threads ensures s.next[c] % threads == c { DivModUnique(c, threads, 0, c); }
    forall x: nat ensures AccountedAt(s, n, x) {
      NoHands(s.workers, x);
      assert s.next[x % threads] == x % threads <= x by { ModBelow(x, threads); }
    }
  }

  lemma {:induction false} ModBelow(x: nat, t: nat)
    requires t > 0
    ensures x % t <= x
  {
  }

  /** Moving counter c past k takes k and no other index. */
  lemma {:induction false} TakesOne(next: seq<nat>, c: nat, x: nat)
    requires c < |next| && Classes(next)
    ensures Taken(next[c := next[c] + |next|], x) <==> Taken(next, x) || x == next[c]
  {
    var t, k := |next|, next[c];
    if x % t == c && k <= x < k + t { SameClass(k, x, t); }
    assert k % t == c;
  }

  lemma {:induction false} SameClass(k: nat, x: nat, t: nat)
    requires t > 0 && k <= x < k + t && x % t == k % t
    ensures x == k
  {
    var qk, qx := k / t, x / t;
    assert k == qk * t + k % t && x == qx * t + x % t;
    assert x - k == (qx - qk) * t;
    if qx > qk { MulMono(1, qx - qk, t); }
    if qx < qk { MulMono(1, qk - qx, t); }
  }

  lemma {:induction false} ClassesKept(next: seq<nat>, c: nat)
    requires c < |next| && Classes(next)
    ensures Classes(next[c := next[c] + |next|])
  {
    var t := |next|;
    ModuloOfMultiple(1, next[c], t);
    assert (next[c] + t) % t == next[c] % t;
  }

  lemma {:induction false} TakeKeeps(s: State, w: nat, c: nat, n: nat, over: Phase)
    requires Inv(s, n) && w < |s.workers| && c < |s.next| && s.workers[w].hand == Free
    requires over != Own && (over == Steal ==> c == w)
    requires over == Exited ==> s.workers[w].phase == Steal
    requires s.workers[w].phase != Exited
    ensures Inv(Take(s, w, c, n, over), n)
  {
    hide Held, Taken, Classes;
    var s' := Take(s, w, c, n, over);
    ClassesKept(s.next, c);
    NotYetTaken(s.next, c);
    forall x: nat ensures AccountedAt(s', n, x) {
      assert AccountedAt(s, n, x);
      HeldUpdate(s.workers, w, s'.workers[w], x);
      TakesOne(s.next, c, x);
    }
  }

  lemma {:induction false} NotYetTaken(next: seq<nat>, c: nat)
    requires c < |next| && Classes(next)
    ensures !Taken(next, next[c])
  {
  }

  lemma {:induction false} ExecuteKeeps(s: State, w: nat, n: nat)
    requires Inv(s, n) && Enabled(s, Execute(w))
    ensures Inv(Step(s, Execute(w), n), n)
  {
    hide Held, Taken, Classes;
    var s' := Step(s, Execute(w), n);
    forall x: nat ensures AccountedAt(s', n, x) {
      assert AccountedAt(s, n, x);
      HeldUpdate(s.workers, w, s'.workers[w], x);
    }
  }

  lemma {:induction false} StepKeepsInv(s: State, e: Event, n: nat)
    requires Inv(s, n) && Enabled(s, e)
    ensures Inv(Step(s, e, n), n)
  {
    hide AccountedAt, Classes, Take;
    match e
    case TakeOwn(w) => TakeKeeps(s, w, w, n, Steal);
    case TakeFrom(w, v) => TakeKeeps(s, w, v, n, Exited);
    case Execute(w) => ExecuteKeeps(s, w, n);
  }

  lemma {:induction false} RunKeepsInv(s: State, es: seq<Event>, n: nat, s': State)
    requires Inv(s, n) && Runs(s, es, n, s')
    ensures Inv(s', n)
    decreases |es|
  {
    hide Inv, Enabled, Step;
    if es != [] {
      StepKeepsInv(s, es[0], n);
      RunKeepsInv(Step(s, es[0], n), es[1..], n, s');
    }
  }

  /** In every interleaving, no index is executed twice and none outside the range is; when all
      workers have exited, every index has been executed exactly once. */
  lemma {:induction false} ExactlyOnce(threads: nat, n: nat, es: seq<Event>, s: State)
    requires threads > 0 && Runs(Start(threads), es, n, s)
    ensures forall x: nat :: s.done[x] <= if x < n then 1 else 0
    ensures (forall w :: 0 <= w < |s.workers| ==> s.workers[w].phase == Exited) ==>
              forall x: nat :: s.done[x] == if x < n then 1 else 0
  {
    hide Runs, Taken, Held;
    StartInv(threads, n);
    RunKeepsInv(Start(threads), es, n, s);
    forall x: nat ensures s.done[x] <= if x < n then 1 else 0 { assert AccountedAt(s, n, x); }
    if forall w :: 0 <= w < |s.workers| ==> s.workers[w].phase == Exited {
      forall x: nat ensures s.done[x] == if x < n then 1 else 0 {
        assert AccountedAt(s, n, x);
        NoHands(s.workers, x);
        if x < n { AllTaken(s, n, x); }
      }
    }
  }

  lemma {:induction false} AllTaken(s: State, n: nat, x: nat)
    requires |s.next| > 0 && x < n && forall c :: 0 <= c < |s.next| ==> s.next[c] >= n
    ensures Taken(s.next, x)
  {
  }

  ghost predicate Gone(s: State, w: nat) { w < |s.workers| && s.workers[w].phase == Exited }

  /** Worker w tried counter v, which has run out. */
  ghost predicate TriedInVain(s: State, es: seq<Event>, w: nat, v: nat, n: nat) {
    TakeFrom(w, v) in es && v < |s.next| && s.next[v] >= n
  }

  lemma {:induction false} StepKeepsCounters(s: State, e: Event, n: nat, w: nat)
    requires Enabled(s, e)
    ensures var s' := Step(s, e, n);
            && |s'.next| == |s.next| && (forall c :: 0 <= c < |s.next| ==> s'.next[c] >= s.next[c])
            && (Gone(s', w) && !Gone(s, w) ==> e.TakeFrom? && e.w == w && s'.next[e.victim] >= n)
  {
  }

  lemma {:induction false} RunKeepsCounters(s: State, es: seq<Event>, n: nat, s': State)
    requires Runs(s, es, n, s')
    ensures |s'.next| == |s.next| && forall c :: 0 <= c < |s.next| ==> s'.next[c] >= s.next[c]
    decreases |es|
  {
    hide Step, Enabled;
    if es != [] {
      StepKeepsCounters(s, es[0], n, 0);
      RunKeepsCounters(Step(s, es[0], n), es[1..], n, s');
    }
  }

  lemma {:induction false} GoneTried(s: State, es: seq<Event>, n: nat, s': State, w: nat)
    requires Runs(s, es, n, s') && Gone(s', w) && !Gone(s, w)
    ensures exists v :: TriedInVain(s', es, w, v, n)
    decreases |es|
  {
    hide Step, Enabled, Gone;
    if es != [] {
      var t := Step(s, es[0], n);
      StepKeepsCounters(s, es[0], n, w);
      if Gone(t, w) {
        RunKeepsCounters(t, es[1..], n, s');
        VictimExists(s, es[0]);
        assert TriedInVain(s', es, w, es[0].victim, n);
      } else {
        GoneTried(t, es[1..], n, s', w);
        var v :| TriedInVain(s', es[1..], w, v, n);
        assert TriedInVain(s', es, w, v, n);
      }
    }
  }

  lemma {:induction false} VictimExists(s: State, e: Event)
    requires Enabled(s, e) && e.TakeFrom?
    ensures e.victim < |s.next|
  {
  }

  /** Nobody leaves early: in every interleaving a worker that has exited had run out of its own
      indices and then tried to steal from a counter that had run out too. */
  lemma {:induction false} ExitsOnlyInVain(threads: nat, n: nat, es: seq<Event>, s: State, w: nat)
    requires threads > 0 && Runs(Start(threads), es, n, s) && Gone(s, w)
    ensures w < |s.next| && s.next[w] >= n && exists v :: TriedInVain(s, es, w, v, n)
  {
    StartInv(threads, n);
    RunKeepsInv(Start(threads), es, n, s);
    GoneTried(Start(threads), es, n, s, w);
  }

  /** A worker that has not exited can always move. */
  lemma {:induction false} NeverStuck(s: State, n: nat, w: nat)
    requires Inv(s, n) && w < |s.workers| && s.workers[w].phase != Exited
    ensures exists e: Event :: e.w == w && Enabled(s, e)
  {
    var v := s.workers[w];
    var e := if v.hand.Holds? then Execute(w) else if v.phase == Own then TakeOwn(w) else TakeFrom(w, 0);
    assert Enabled(s, e);
  }
}
