/** kt_pipeline's workers (deps/klib/kthread.c). Starting and leaving a step happen under the
    mutex, so they are the atomic steps; a worker that may not start waits. */
module Pipeline {

  /** A worker's batch index and step, and whether it is inside the step's function. */
  datatype Worker = Worker(index: nat, step: nat, running: bool)

  /** An entry into a step, as it happened. */
  datatype Entry = Entry(step: nat, index: nat)

  /** The end of a step, and whether its function returned data. */
  datatype Exit = Exit(step: nat, index: nat, data: bool)

  /** The last two fields record what happened; the code does not read them. */
  datatype State = State(workers: seq<Worker>, next: nat, entries: seq<Entry>, exits: seq<Exit>)

  /** Leaving says whether the step's function returned data. */
  datatype Event = Start(w: nat) | Leave(w: nat, data: bool)

  /** The test made under the mutex: no other worker with a smaller index is at this step or
      an earlier one. */
  predicate MayStart(ws: seq<Worker>, w: nat)
    requires w < |ws|
  {
    forall i :: 0 <= i < |ws| && i != w ==> !(ws[i].step <= ws[w].step && ws[i].index < ws[w].index)
  }

  predicate Enabled(s: State, e: Event, steps: nat) {
    e.w < |s.workers| && s.workers[e.w].step < steps &&
    match e
    case Start(w) => !s.workers[w].running && MayStart(s.workers, w)
    case Leave(w, data) => s.workers[w].running
  }

  function Step(s: State, e: Event, steps: nat): State
    requires Enabled(s, e, steps)
  {
    match e
    case Start(w) =>
      s.(workers := s.workers[w := s.workers[w].(running := true)],
         entries := s.entries + [Entry(s.workers[w].step, s.workers[w].index)])
    case Leave(w, data) =>
      var v := s.workers[w];
      var s' := s.(exits := s.exits + [Exit(v.step, v.index, data)]);
      var step := if v.step == steps - 1 || data then (v.step + 1) % steps else steps;
      if step == 0 then s'.(workers := s.workers[w := Worker(s.next, 0, false)], next := s.next + 1)
      else s'.(workers := s.workers[w := Worker(v.index, step, false)])
  }

  function Begin(threads: nat): State {
    State(seq(threads, i requires i >= 0 => Worker(i, 0, false)), threads, [], [])
  }

  ghost predicate Runs(s: State, es: seq<Event>, steps: nat, s': State)
    decreases |es|
  {
    if es == [] then s' == s
    else Enabled(s, es[0], steps) && Runs(Step(s, es[0], steps), es[1..], steps, s')
  }

  // ------------------------------------------------------------ the invariant

  ghost predicate Distinct(s: State) {
    && (forall i :: 0 <= i < |s.workers| ==> s.workers[i].index < s.next)
    && (forall i, j :: 0 <= i < j < |s.workers| ==> s.workers[i].index != s.workers[j].index)
  }

  /** A running worker is still allowed to run. */
  ghost predicate Allowed(s: State) {
    forall w :: 0 <= w < |s.workers| && s.workers[w].running ==> MayStart(s.workers, w)
  }

  /** Worker v has gone past a recorded entry made with an index as large as its own: it is
      beyond that step, or inside it on this very entry. */
  ghost predicate Past(v: Worker, e: Entry) {
    && (v.index < e.index ==> v.step > e.step)
    && (v.index == e.index ==> v.step > e.step || (v.step == e.step && v.running))
  }

  ghost predicate Recorded(s: State) {
    && (forall t :: 0 <= t < |s.entries| ==> s.entries[t].index < s.next)
    && (forall i, t {:trigger s.workers[i], s.entries[t]} :: 0 <= i < |s.workers| && 0 <= t < |s.entries| ==>
        Past(s.workers[i], s.entries[t]))
  }

  /** Entries into one step have strictly increasing indices. */
  ghost predicate Increasing(es: seq<Entry>) {
    forall t, u :: 0 <= t < u < |es| && es[t].step == es[u].step ==> es[t].index < es[u].index
  }

  /** Every entry into a later step comes after the same batch's entry into the step before. */
  ghost predicate Backed(es: seq<Entry>) {
    forall t :: 0 <= t < |es| ==> BackedBy(es[t], es[..t])
  }

  ghost predicate BackedBy(e: Entry, before: seq<Entry>) { e.step > 0 ==> Entry(e.step - 1, e.index) in before }

  /** What a worker has behind it is recorded. */
  ghost predicate Behind(s: State, steps: nat) {
    forall i :: 0 <= i < |s.workers| && s.workers[i].step < steps ==> BehindOne(s.workers[i], s.entries)
  }

  ghost predicate BehindOne(v: Worker, es: seq<Entry>) {
    (v.step > 0 ==> Entry(v.step - 1, v.index) in es) && (v.running ==> Entry(v.step, v.index) in es)
  }

  ghost predicate Inv(s: State, steps: nat) {
    Distinct(s) && Allowed(s) && Recorded(s) && Increasing(s.entries) && Backed(s.entries) && Behind(s, steps)
  }

  lemma {:induction false} BeginInv(threads: nat, steps: nat)
    ensures Inv(Begin(threads), steps)
  {
  }

  /** An entry whose step before is recorded may follow. */
  lemma {:induction false} AppendBacks(es: seq<Entry>, v: Worker)
    requires Backed(es) && BehindOne(v, es)
    ensures Backed(es + [Entry(v.step, v.index)])
  {
    var e := Entry(v.step, v.index);
    var es' := es + [e];
    assert BackedBy(e, es);
    hide BackedBy, BehindOne;
    forall t | 0 <= t < |es'| ensures BackedBy(es'[t], es'[..t]) {
      if t == |es| {
        assert es'[..t] == es && es'[t] == e;
      } else {
        assert es'[..t] == es[..t] && es'[t] == es[t];
      }
    }
  }

  lemma {:induction false} BehindGrows(v: Worker, es: seq<Entry>, e: Entry)
    requires BehindOne(v, es)
    ensures BehindOne(v, es + [e])
  {
  }

  lemma {:induction false} BehindStarts(v: Worker, es: seq<Entry>)
    requires BehindOne(v, es)
    ensures BehindOne(v.(running := true), es + [Entry(v.step, v.index)])
  {
    assert (es + [Entry(v.step, v.index)])[|es|] == Entry(v.step, v.index);
  }

  lemma {:induction false} StartBacks(s: State, w: nat, steps: nat)
    requires Backed(s.entries) && Behind(s, steps) && Enabled(s, Start(w), steps)
    ensures var s' := Step(s, Start(w), steps); Backed(s'.entries) && Behind(s', steps)
  {
    hide Backed, BehindOne, MayStart;
    var s', v := Step(s, Start(w), steps), s.workers[w];
    assert BehindOne(v, s.entries);
    AppendBacks(s.entries, v);
    forall i | 0 <= i < |s.workers| && s'.workers[i].step < steps ensures BehindOne(s'.workers[i], s'.entries) {
      if i == w { BehindStarts(v, s.entries); } else { BehindGrows(s.workers[i], s.entries, Entry(v.step, v.index)); }
    }
  }

  lemma {:induction false} LeaveBacks(s: State, w: nat, data: bool, steps: nat)
    requires Backed(s.entries) && Behind(s, steps) && Enabled(s, Leave(w, data), steps)
    ensures var s' := Step(s, Leave(w, data), steps); Backed(s'.entries) && Behind(s', steps)
  {
    hide Backed;
    var s' := Step(s, Leave(w, data), steps);
    forall i | 0 <= i < |s.workers| && s'.workers[i].step < steps ensures BehindOne(s'.workers[i], s'.entries) {
      assert BehindOne(s.workers[w], s.entries);
      assert i != w ==> BehindOne(s.workers[i], s.entries);
    }
  }

  lemma {:induction false} StartKeeps(s: State, w: nat, steps: nat)
    requires Inv(s, steps) && Enabled(s, Start(w), steps)
    ensures Inv(Step(s, Start(w), steps), steps)
  {
    hide Backed, Behind;
    StartBacks(s, w, steps);
    var s' := Step(s, Start(w), steps);
    var v := s.workers[w];
    var e := Entry(v.step, v.index);
    assert Allowed(s') by {
      forall i | 0 <= i < |s.workers| && s'.workers[i].running ensures MayStart(s'.workers, i) {
        assert MayStart(s.workers, i);
      }
    }
    forall t | 0 <= t < |s.entries| && s.entries[t].step == e.step ensures s.entries[t].index < e.index {
      assert Past(s.workers[w], s.entries[t]);
    }
    forall i | 0 <= i < |s.workers| ensures Past(s'.workers[i], e) {
      if i != w { assert !(s.workers[i].step <= v.step && s.workers[i].index < v.index); }
    }
    assert Recorded(s') by {
      forall i, t | 0 <= i < |s'.workers| && 0 <= t < |s'.entries| ensures Past(s'.workers[i], s'.entries[t]) {
        if t < |s.entries| { assert Past(s.workers[i], s.entries[t]); }
      }
    }
  }

  lemma {:induction false} LeaveKeeps(s: State, w: nat, data: bool, steps: nat)
    requires Inv(s, steps) && Enabled(s, Leave(w, data), steps)
    ensures Inv(Step(s, Leave(w, data), steps), steps)
  {
    hide Backed, Behind;
    LeaveBacks(s, w, data, steps);
    LeftAs(s, w, data, steps);
    var s' := Step(s, Leave(w, data), steps);
    assert s'.entries == s.entries;
    hide Step;
    assert Allowed(s') by {
      forall i | 0 <= i < |s.workers| && s'.workers[i].running ensures MayStart(s'.workers, i) {
        assert MayStart(s.workers, i);
      }
    }
    assert Recorded(s') by {
      forall i, t | 0 <= i < |s'.workers| && 0 <= t < |s'.entries| ensures Past(s'.workers[i], s'.entries[t]) {
        assert Past(s.workers[i], s.entries[t]);
      }
    }
  }

  lemma {:induction false} RunKeepsInv(s: State, es: seq<Event>, steps: nat, s': State)
    requires Inv(s, steps) && Runs(s, es, steps, s')
    ensures Inv(s', steps)
    decreases |es|
  {
    hide Inv, Enabled, Step;
    if es != [] {
      StepKeepsInv(s, es[0], steps);
      RunKeepsInv(Step(s, es[0], steps), es[1..], steps, s');
    }
  }

  lemma {:induction false} StepKeepsInv(s: State, e: Event, steps: nat)
    requires Inv(s, steps) && Enabled(s, e, steps)
    ensures Inv(Step(s, e, steps), steps)
  {
    hide Inv;
    match e
    case Start(w) => StartKeeps(s, w, steps);
    case Leave(w, data) => LeaveKeeps(s, w, data, steps);
  }

  // ------------------------------------------------------------ the results

  /** In every schedule at most one worker is inside a step, the batches enter each step in
      strictly increasing order, and each batch enters its steps one after another from the
      first on. */
  lemma {:induction false} StepsAreExclusiveAndOrdered(threads: nat, steps: nat, es: seq<Event>, s: State)
    requires Runs(Begin(threads), es, steps, s)
    ensures forall i, j :: 0 <= i < j < |s.workers| && s.workers[i].running && s.workers[j].running
              ==> s.workers[i].step != s.workers[j].step
    ensures Increasing(s.entries) && Backed(s.entries)
  {
    BeginInv(threads, steps);
    RunKeepsInv(Begin(threads), es, steps, s);
    forall i, j | 0 <= i < j < |s.workers| && s.workers[i].running && s.workers[j].running
      ensures s.workers[i].step != s.workers[j].step
    {
      assert MayStart(s.workers, i) && MayStart(s.workers, j);
    }
  }

  /** What became of a worker: it has stopped after a step other than the last that gave no data, or
      the step behind it gave some. */
  ghost predicate Led(v: Worker, exits: seq<Exit>, steps: nat) {
    if v.step >= steps then steps == 0 || exists k: nat :: k + 1 < steps && Exit(k, v.index, false) in exits
    else v.step > 0 ==> Exit(v.step - 1, v.index, true) in exits
  }

  /** The batch has been through the last step. */
  ghost predicate Through(i: nat, exits: seq<Exit>, steps: nat) {
    steps > 0 && (Exit(steps - 1, i, true) in exits || Exit(steps - 1, i, false) in exits)
  }

  ghost predicate WithWorker(i: nat, ws: seq<Worker>) { exists w :: 0 <= w < |ws| && ws[w].index == i }

  /** Every batch handed out is with a worker or through. */
  ghost predicate Accounted(s: State, steps: nat) {
    && (forall i: nat :: i < s.next ==> WithWorker(i, s.workers) || Through(i, s.exits, steps))
    && (forall w :: 0 <= w < |s.workers| ==> Led(s.workers[w], s.exits, steps))
  }

  lemma {:induction false} LedStill(v: Worker, exits: seq<Exit>, x: Exit, steps: nat)
    requires Led(v, exits, steps)
    ensures Led(v, exits + [x], steps)
  {
    if v.step >= steps && steps > 0 {
      var k: nat :| k + 1 < steps && Exit(k, v.index, false) in exits;
      assert Exit(k, v.index, false) in exits + [x];
    }
  }

  lemma {:induction false} StartAccounts(s: State, w: nat, steps: nat)
    requires Accounted(s, steps) && Enabled(s, Start(w), steps)
    ensures Accounted(Step(s, Start(w), steps), steps)
  {
    hide MayStart, Through;
    var s' := Step(s, Start(w), steps);
    forall i: nat | i < s'.next ensures WithWorker(i, s'.workers) || Through(i, s'.exits, steps) {
      if u :| 0 <= u < |s.workers| && s.workers[u].index == i { assert s'.workers[u].index == i; }
    }
  }

  lemma {:induction false} LeaveAccounts(s: State, w: nat, data: bool, steps: nat)
    requires Accounted(s, steps) && Enabled(s, Leave(w, data), steps)
    ensures Accounted(Step(s, Leave(w, data), steps), steps)
  {
    var s', v := Step(s, Leave(w, data), steps), s.workers[w];
    var x := Exit(v.step, v.index, data);
    assert s'.exits == s.exits + [x] && x in s'.exits;
    LeftAs(s, w, data, steps);
    hide Step;
    forall u | 0 <= u < |s.workers| ensures Led(s'.workers[u], s'.exits, steps) {
      if u != w { LedStill(s.workers[u], s.exits, x, steps); }
    }
    forall i: nat | i < s'.next ensures WithWorker(i, s'.workers) || Through(i, s'.exits, steps) {
      if i == s.next {
        assert s'.workers[w].index == i;
      } else if WithWorker(i, s.workers) {
        var u :| 0 <= u < |s.workers| && s.workers[u].index == i;
        if u == w && v.step == steps - 1 {
          assert x == Exit(steps - 1, i, data);
        } else {
          assert s'.workers[u].index == i;
        }
      } else {
        assert Through(i, s.exits, steps);
      }
    }
  }

  /** Where a worker stands after a step. */
  lemma {:induction false} LeftAs(s: State, w: nat, data: bool, steps: nat)
    requires Enabled(s, Leave(w, data), steps)
    ensures var s', v := Step(s, Leave(w, data), steps), s.workers[w];
            && |s'.workers| == |s.workers|
            && (forall u :: 0 <= u < |s.workers| && u != w ==> s'.workers[u] == s.workers[u])
            && (if v.step == steps - 1 then s'.workers[w] == Worker(s.next, 0, false) && s'.next == s.next + 1
                else s'.workers[w] == Worker(v.index, if data then v.step + 1 else steps, false) && s'.next == s.next)
  {
    var v := s.workers[w];
    if v.step < steps - 1 { assert (v.step + 1) % steps == v.step + 1; } else { assert steps % steps == 0; }
  }

  lemma {:induction false} RunAccounts(s: State, es: seq<Event>, steps: nat, s': State)
    requires Accounted(s, steps) && Runs(s, es, steps, s')
    ensures Accounted(s', steps)
    decreases |es|
  {
    hide Accounted, Enabled, Step;
    if es != [] {
      match es[0] {
        case Start(w) => StartAccounts(s, w, steps);
        case Leave(w, data) => LeaveAccounts(s, w, data, steps);
      }
      RunAccounts(Step(s, es[0], steps), es[1..], steps, s');
    }
  }

  /** In every schedule no batch is lost: each index handed out is with a worker or has been through
      the last step; a worker that has stopped did so after a step other than the last that gave no
      data, and any other worker's step follows one that gave some. */
  lemma {:induction false} NoBatchIsLost(threads: nat, steps: nat, es: seq<Event>, s: State)
    requires Runs(Begin(threads), es, steps, s)
    ensures forall i: nat :: i < s.next ==> WithWorker(i, s.workers) || Through(i, s.exits, steps)
    ensures forall w :: 0 <= w < |s.workers| ==> Led(s.workers[w], s.exits, steps)
  {
    var s0 := Begin(threads);
    forall i: nat | i < s0.next ensures WithWorker(i, s0.workers) { assert s0.workers[i].index == i; }
    RunAccounts(s0, es, steps, s);
  }

  /** The unfinished worker with the smallest index among those from `from` on. */
  lemma {:induction false} Smallest(ws: seq<Worker>, steps: nat, from: nat) returns (w: nat)
    requires exists i :: from <= i < |ws| && ws[i].step < steps
    ensures from <= w < |ws| && ws[w].step < steps
    ensures forall i :: from <= i < |ws| && ws[i].step < steps ==> ws[w].index <= ws[i].index
    decreases |ws| - from
  {
    if exists i :: from + 1 <= i < |ws| && ws[i].step < steps {
      w := Smallest(ws, steps, from + 1);
      if ws[from].step < steps && ws[from].index < ws[w].index { w := from; }
    } else {
      w := from;
    }
  }

  /** The unfinished worker with the smallest index is never blocked. */
  lemma {:induction false} SmallestIsNeverBlocked(s: State, steps: nat, w: nat)
    requires w < |s.workers| && s.workers[w].step < steps
    requires forall i :: 0 <= i < |s.workers| && s.workers[i].step < steps ==> s.workers[w].index <= s.workers[i].index
    ensures s.workers[w].running || Enabled(s, Start(w), steps)
  {
  }

  /** So no schedule deadlocks: while a worker is unfinished, one can start or leave a step. */
  lemma {:induction false} NeverDeadlocked(s: State, steps: nat)
    requires exists i :: 0 <= i < |s.workers| && s.workers[i].step < steps
    ensures exists e :: Enabled(s, e, steps)
  {
    var w := Smallest(s.workers, steps, 0);
    SmallestIsNeverBlocked(s, steps, w);
    assert Enabled(s, Start(w), steps) || Enabled(s, Leave(w, true), steps);
  }
}
