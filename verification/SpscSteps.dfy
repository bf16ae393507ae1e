/** The ring operations of src/queue_spsc.c cut into their atomic loads, slot accesses
    and stores, one producer and one consumer interleaved in any order (sequentially
    consistent memory). Every step either leaves the queue alone or acts on it as one
    step of a bounded FIFO. */
module SpscSteps {
  import opened Bits
  import opened SpscQueue

  datatype Peeked<T> = Nothing | Oldest(value: T)

  /** Where the producer stands inside tn_queue_spsc_push. */
  datatype Producer<T> =
    | PIdle
    | PLoadHead(x: T)
    | PLoadTail(x: T, h: nat)
    | PWrite(x: T, h: nat)
    | PStore(x: T, h: nat)
    | PDone(ok: bool)

  /** Peek reads the oldest item; Take(n) is pop_all for up to n items, and pop_back for n = 1;
      Drop is pop, which takes the oldest item off without reading its slot. */
  datatype Op = Peek | Take(limit: nat) | Drop

  /** Where the consumer stands; `want` items are visible to it and `got` were read so far. */
  datatype Consumer<T> =
    | CIdle
    | CLoadTail(op: Op)
    | CLoadHead(op: Op, t: nat)
    | CRead(op: Op, t: nat, want: nat, got: seq<T>)
    | CStore(t: nat, got: seq<T>)
    | CDrop(t: nat)
    | CPopCached
    | CDone(got: seq<T>)

  /** `pushed` is what producers handed over, `delivered` what consumers took off the ring;
      neither is read by the code. */
  datatype Ring<T> = Ring(
    buf: seq<T>, head: nat, tail: nat, tailCache: nat, peeked: Peeked<T>,
    prod: Producer<T>, cons: Consumer<T>,
    pushed: seq<T>, delivered: seq<T>)

  ghost predicate Shape<T>(r: Ring<T>) {
    && IsPow2(|r.buf|) && |r.buf| <= TOP_BIT
    && r.delivered <= r.pushed && |r.pushed| <= |r.delivered| + |r.buf|
    && r.head == |r.pushed| % WORD && r.tail == |r.delivered| % WORD
    && (forall i {:trigger Slot(i, |r.buf|)} :: |r.delivered| <= i < |r.pushed| ==>
        r.buf[Slot(i, |r.buf|)] == r.pushed[i])
    && (r.peeked.Oldest? ==>
          && |r.delivered| < |r.pushed| && r.pushed[|r.delivered|] == r.peeked.value
          && r.tailCache == r.tail)
  }

  ghost predicate ProducerInv<T>(r: Ring<T>)
    requires Shape(r)
  {
    match r.prod
    case PLoadTail(x, h) => h == r.head
    case PWrite(x, h) => h == r.head && |r.pushed| < |r.delivered| + |r.buf|
    case PStore(x, h) =>
      && h == r.head && |r.pushed| < |r.delivered| + |r.buf|
      && r.buf[Slot(|r.pushed|, |r.buf|)] == x
    case _ => true
  }

  ghost predicate Visible<T>(r: Ring<T>, got: seq<T>) {
    && |r.delivered| + |got| <= |r.pushed|
    && got == r.pushed[|r.delivered|..|r.delivered| + |got|]
  }

  ghost predicate ConsumerInv<T>(r: Ring<T>)
    requires Shape(r)
  {
    match r.cons
    case CLoadTail(op) => op.Take? ==> op.limit > 0
    case CLoadHead(op, t) => t == r.tail && (op.Take? ==> op.limit > 0)
    case CRead(op, t, want, got) =>
      && t == r.tail && |got| < want && |r.delivered| + want <= |r.pushed|
      && !op.Drop? && want <= (if op.Peek? then 1 else op.limit) && Visible(r, got)
    case CStore(t, got) => t == r.tail && |got| > 0 && Visible(r, got)
    case CDrop(t) => t == r.tail && |r.delivered| < |r.pushed|
    case CPopCached => r.peeked.Oldest?
    case _ => true
  }

  ghost predicate Inv<T>(r: Ring<T>) {
    Shape(r) && ProducerInv(r) && ConsumerInv(r)
  }

  /** The abstract queue: accepted and not yet delivered. */
  function Queue<T>(r: Ring<T>): seq<T> {
    if |r.delivered| <= |r.pushed| then r.pushed[|r.delivered|..] else []
  }

  function Create<T>(buf: seq<T>): Ring<T> {
    Ring(buf, 0, 0, 0, Nothing, PIdle, CIdle, [], [])
  }

  // ------------------------------------------------------------ the steps

  function BeginPush<T>(r: Ring<T>, x: T): Ring<T> { r.(prod := PLoadHead(x)) }

  function BeginTake<T>(r: Ring<T>, op: Op): Ring<T> { r.(cons := CLoadTail(op)) }

  function BeginPopCached<T>(r: Ring<T>): Ring<T> { r.(cons := CPopCached) }

  function ProducerStep<T>(r: Ring<T>): Ring<T> {
    match r.prod
    case PLoadHead(x) => r.(prod := PLoadTail(x, r.head))
    case PLoadTail(x, h) =>
      if Sub64(h, r.tail) == |r.buf| then r.(prod := PDone(false)) else r.(prod := PWrite(x, h))
    case PWrite(x, h) =>
      if r.buf == [] then r
      else r.(buf := r.buf[And(h, |r.buf| - 1) := x], prod := PStore(x, h))
    case PStore(x, h) => r.(head := Add64(h, 1), pushed := r.pushed + [x], prod := PDone(true))
    case _ => r
  }

  function ConsumerStep<T>(r: Ring<T>): Ring<T> {
    match r.cons
    case CLoadTail(op) => r.(cons := CLoadHead(op, r.tail))
    case CLoadHead(op, t) =>
      var size := Sub64(r.head, t);
      var limit := if op.Take? then op.limit else 1;
      if size == 0 then r.(cons := CDone([]))
      else if op.Drop? then r.(cons := CDrop(t))
      else r.(cons := CRead(op, t, if size < limit then size else limit, []))
    case CRead(op, t, want, got) =>
      if r.buf == [] then r
      else
        var v := r.buf[And(Add64(t, |got|), |r.buf| - 1)];
        if op.Peek? then r.(tailCache := t, peeked := Oldest(v), cons := CDone([v]))
        else if |got| + 1 == want then r.(cons := CStore(t, got + [v]))
        else r.(cons := CRead(op, t, want, got + [v]))
    case CStore(t, got) =>
      r.(tail := Add64(t, |got|), delivered := r.delivered + got, peeked := Nothing, cons := CDone(got))
    case CDrop(t) =>
      r.(tail := Add64(t, 1), delivered := r.delivered + Queue(r)[..Min(1, |Queue(r)|)], peeked := Nothing,
         cons := CDone([]))
    case CPopCached =>
      if r.peeked.Nothing? then r
      else
        r.(tail := Add64(r.tailCache, 1), delivered := r.delivered + [r.peeked.value],
           peeked := Nothing, cons := CDone([r.peeked.value]))
    case _ => r
  }

  // ------------------------------------------------------------ what every step keeps

  /** An operation may start when the thread is between operations; a cached pop needs
      the peek it completes, a take a positive bound. */
  ghost predicate MayBeginPush<T>(r: Ring<T>) { r.prod.PIdle? || r.prod.PDone? }

  ghost predicate MayBegin<T>(r: Ring<T>, op: Op) {
    (r.cons.CIdle? || r.cons.CDone?) && (op.Take? ==> op.limit > 0)
  }

  lemma {:induction false} CreateInv<T>(buf: seq<T>)
    requires IsPow2(|buf|) && |buf| <= TOP_BIT
    ensures Inv(Create(buf)) && Queue(Create(buf)) == []
  {
  }

  /** A slot the producer is about to write holds no live item, so the consumer cannot
      be reading it. */
  lemma {:induction false} WrittenSlotIsDead<T>(r: Ring<T>, i: nat)
    requires Inv(r) && r.prod.PWrite? && |r.delivered| <= i < |r.pushed|
    ensures And(r.prod.h, |r.buf| - 1) != Slot(i, |r.buf|)
  {
    SlotOfCounter(|r.pushed|, |r.buf|);
    SlotsDiffer(i, |r.pushed|, |r.buf|);
  }

  /** What a producer step does to the queue: nothing, except that the head store appends
      one item within the capacity; "full" is reported only when the ring really is full
      at the tail load. */
  ghost predicate ProducerEffect<T>(r: Ring<T>, r': Ring<T>) {
    && r'.delivered == r.delivered && r'.cons == r.cons && r'.peeked == r.peeked && |r'.buf| == |r.buf|
    && (if r.prod.PStore?
        then r'.pushed == r.pushed + [r.prod.x] && Queue(r') == Queue(r) + [r.prod.x]
             && |Queue(r')| <= |r.buf| && r'.prod == PDone(true)
        else r'.pushed == r.pushed && Queue(r') == Queue(r))
    && (r.prod.PLoadTail? ==> (r'.prod == PDone(false) <==> |Queue(r)| == |r.buf|)
                              && (r'.prod.PDone? || r'.prod == PWrite(r.prod.x, r.prod.h)))
  }

  lemma {:induction false} WriteKeepsInv<T>(r: Ring<T>)
    requires Inv(r) && r.prod.PWrite?
    ensures Inv(ProducerStep(r))
  {
    var r' := ProducerStep(r);
    SlotOfCounter(|r.pushed|, |r.buf|);
    var slot := Slot(|r.pushed|, |r.buf|);
    assert r'.buf == r.buf[slot := r.prod.x];
    forall i | |r.delivered| <= i < |r.pushed| ensures Slot(i, |r.buf|) != slot {
      SlotsDiffer(i, |r.pushed|, |r.buf|);
    }
    assert Shape(r') && ProducerInv(r');
  }

  lemma {:induction false} HeadStoreKeepsInv<T>(r: Ring<T>)
    requires Inv(r) && r.prod.PStore?
    ensures Inv(ProducerStep(r))
  {
    SuccWrap(|r.pushed|);
    var r' := ProducerStep(r);
    assert r.pushed <= r'.pushed;
    assert ConsumerInv(r');
  }

  lemma {:induction false} ProducerStepRefines<T>(r: Ring<T>)
    requires Inv(r)
    ensures Inv(ProducerStep(r)) && ProducerEffect(r, ProducerStep(r))
  {
    if r.prod.PWrite? {
      WriteKeepsInv(r);
    } else if r.prod.PStore? {
      HeadStoreKeepsInv(r);
    } else if r.prod.PLoadTail? {
      CounterDifference(|r.pushed|, |r.delivered|, |r.buf|);
    }
  }

  /** What a consumer step does to the queue: nothing, except that a tail store removes
      from its front exactly the items read; "empty" is reported only when the ring is
      empty at the head load. */
  ghost predicate ConsumerEffect<T>(r: Ring<T>, r': Ring<T>) {
    && r'.pushed == r.pushed && r'.prod == r.prod && |r'.buf| == |r.buf|
    && (match r.cons
        case CStore(t, got) =>
          r'.delivered == r.delivered + got && got <= Queue(r)
          && Queue(r') == Queue(r)[|got|..] && r'.cons == CDone(got)
        case CDrop(t) =>
          |Queue(r)| > 0 && r'.delivered == r.delivered + [Queue(r)[0]]
          && Queue(r') == Queue(r)[1..] && r'.cons == CDone([])
        case CPopCached =>
          |Queue(r)| > 0 && r'.delivered == r.delivered + [Queue(r)[0]]
          && Queue(r') == Queue(r)[1..] && r'.cons == CDone([Queue(r)[0]])
        case CLoadHead(op, t) =>
          && r'.delivered == r.delivered && r'.peeked == r.peeked
          && (if Queue(r) == [] then r'.cons == CDone([])
              else if op.Drop? then r'.cons == CDrop(t)
              else r'.cons.CRead? && r'.cons.op == op && r'.cons.got == []
                   && (op.Take? ==> r'.cons.want == Min(op.limit, |Queue(r)|)))
        case CRead(op, t, want, got) =>
          && r'.delivered == r.delivered
          && (op.Peek? ==> |Queue(r)| > 0 && r'.peeked == Oldest(Queue(r)[0]) && r'.cons == CDone([Queue(r)[0]]))
          && (op.Take? ==> r'.peeked == r.peeked &&
                           if |got| + 1 == want then r'.cons.CStore? && |r'.cons.got| == want
                           else r'.cons.CRead? && r'.cons.want == want)
        case _ => r'.delivered == r.delivered && r'.peeked == r.peeked)
  }

  lemma {:induction false} ReadsOldestUnread<T>(r: Ring<T>)
    requires Inv(r) && r.cons.CRead?
    ensures var n := |r.delivered| + |r.cons.got|;
            And(Add64(r.cons.t, |r.cons.got|), |r.buf| - 1) < |r.buf|
            && r.buf[And(Add64(r.cons.t, |r.cons.got|), |r.buf| - 1)] == r.pushed[n]
            && r.pushed[|r.delivered|..n + 1] == r.cons.got + [r.pushed[n]]
  {
    var n := |r.delivered| + |r.cons.got|;
    AddWrap(|r.delivered|, |r.cons.got|);
    SlotOfCounter(n, |r.buf|);
    assert r.buf[Slot(n, |r.buf|)] == r.pushed[n];
  }

  lemma {:induction false} ReadKeepsInv<T>(r: Ring<T>)
    requires Inv(r) && r.cons.CRead?
    ensures Inv(ConsumerStep(r)) && ConsumerEffect(r, ConsumerStep(r))
  {
    ReadsOldestUnread(r);
    hide Slot, And;
  }

  lemma {:induction false} TailStoreKeepsInv<T>(r: Ring<T>)
    requires Inv(r) && r.cons.CStore?
    ensures Inv(ConsumerStep(r)) && ConsumerEffect(r, ConsumerStep(r))
  {
    var n, got, r' := |r.delivered|, r.cons.got, ConsumerStep(r);
    AddWrap(n, |got|);
    assert r.pushed == r.delivered + r.pushed[n..];
    assert r'.delivered == r.pushed[..n + |got|];
  }

  lemma {:induction false} PopCachedKeepsInv<T>(r: Ring<T>)
    requires Inv(r) && r.cons.CPopCached?
    ensures Inv(ConsumerStep(r)) && ConsumerEffect(r, ConsumerStep(r))
  {
    var n, r' := |r.delivered|, ConsumerStep(r);
    SuccWrap(n);
    assert r'.delivered == r.pushed[..n + 1];
  }

  lemma {:induction false} DropKeepsInv<T>(r: Ring<T>)
    requires Inv(r) && r.cons.CDrop?
    ensures Inv(ConsumerStep(r)) && ConsumerEffect(r, ConsumerStep(r))
  {
    var n, r' := |r.delivered|, ConsumerStep(r);
    SuccWrap(n);
    assert r'.delivered == r.pushed[..n + 1];
  }

  lemma {:induction false} LoadHeadKeepsInv<T>(r: Ring<T>)
    requires Inv(r) && r.cons.CLoadHead?
    ensures Inv(ConsumerStep(r)) && ConsumerEffect(r, ConsumerStep(r))
  {
    CounterDifference(|r.pushed|, |r.delivered|, |r.buf|);
    hide Slot, And;
  }

  lemma {:induction false} ConsumerStepRefines<T>(r: Ring<T>)
    requires Inv(r)
    ensures Inv(ConsumerStep(r)) && ConsumerEffect(r, ConsumerStep(r))
  {
    if r.cons.CRead? {
      ReadKeepsInv(r);
    } else if r.cons.CStore? {
      TailStoreKeepsInv(r);
    } else if r.cons.CDrop? {
      DropKeepsInv(r);
    } else if r.cons.CPopCached? {
      PopCachedKeepsInv(r);
    } else if r.cons.CLoadHead? {
      LoadHeadKeepsInv(r);
    } else {
      assert ConsumerStep(r) == r || r.cons.CLoadTail?;
    }
  }

  function Min(a: nat, b: nat): nat { if a < b then a else b }

  // ------------------------------------------------------------ whole runs

  /** One scheduling decision: which thread moves, and what it starts when it is between
      operations. */
  datatype Turn<T> = StartPush(x: T) | StartTake(op: Op) | StartPopCached | Produce | Consume

  ghost predicate Enabled<T>(r: Ring<T>, t: Turn<T>) {
    match t
    case StartPush(x) => MayBeginPush(r)
    case StartTake(op) => MayBegin(r, op)
    case StartPopCached => (r.cons.CIdle? || r.cons.CDone?) && r.peeked.Oldest?
    case _ => true
  }

  function Apply<T>(r: Ring<T>, t: Turn<T>): Ring<T> {
    match t
    case StartPush(x) => BeginPush(r, x)
    case StartTake(op) => BeginTake(r, op)
    case StartPopCached => BeginPopCached(r)
    case Produce => ProducerStep(r)
    case Consume => ConsumerStep(r)
  }

  ghost predicate Run<T>(r: Ring<T>, turns: seq<Turn<T>>, r': Ring<T>)
    decreases |turns|
  {
    if turns == [] then r' == r
    else Enabled(r, turns[0]) && Run(Apply(r, turns[0]), turns[1..], r')
  }

  lemma {:induction false} TurnRefines<T>(r: Ring<T>, t: Turn<T>)
    requires Inv(r) && Enabled(r, t)
    ensures var r' := Apply(r, t);
            && Inv(r') && |r'.buf| == |r.buf| && r.pushed <= r'.pushed && r.delivered <= r'.delivered
            && (match t
                case Produce => ProducerEffect(r, r')
                case Consume => ConsumerEffect(r, r')
                case _ => Queue(r') == Queue(r))
  {
    match t {
      case Produce => ProducerStepRefines(r);
      case Consume => ConsumerStepRefines(r);
      case _ =>
    }
  }

  /** In every interleaving, however often the counters wrap, what the consumer took out
      is a prefix of what the producer put in, never more than the capacity behind it. */
  lemma {:induction false} RunIsFifo<T>(r: Ring<T>, turns: seq<Turn<T>>, r': Ring<T>)
    requires Inv(r) && Run(r, turns, r')
    ensures Inv(r') && |r'.buf| == |r.buf|
    ensures r'.delivered <= r'.pushed && |r'.pushed| - |r'.delivered| <= |r.buf|
    ensures r.pushed <= r'.pushed && r.delivered <= r'.delivered
    decreases |turns|
  {
    if turns != [] {
      TurnRefines(r, turns[0]);
      RunIsFifo(Apply(r, turns[0]), turns[1..], r');
    }
  }
}
