/** The write-request protocol between the application thread (tcp_service_send) and the
    IO thread (on_prep_cb, on_send_cb). Each thread runs the ring operations of SpscSteps
    one atomic step at a time; the two threads interleave freely.

    The application publishes a request on the ready ring before it pops that request and
    its buffer from the free rings, so the IO thread may finish with both and hand them
    back while the application still shows them as free. */
module SendProtocol {
  import opened Bits
  import SpscQueue
  import opened SpscSteps
  import opened Sequences

  /** Where the application stands inside tcp_service_send. */
  datatype App =
    | AIdle
    | APeekReq
    | APeekBuf(r: int)
    | AFill(r: int, b: int)
    | APush(r: int, b: int)
    | APopBuf(r: int, b: int)
    | APopReq(r: int, b: int)

  /** Where the IO thread stands; `drain` says whether it is inside on_prep_cb's loop. */
  datatype Io =
    | IIdle
    | IDrain
    | IDispatch(r: int)
    | IPushBuf(r: int, b: int, drain: bool)
    | IPushReq(r: int, drain: bool)

  type Byte = bv8

  /** What the application asks to have sent. */
  datatype Message = Message(channel: int, bytes: seq<Byte>)

  /** The arguments of the call in progress, each request's channel field, and the buffers' contents,
      `size` bytes at most. */
  datatype Mail = Mail(size: nat, msg: Message, chan: map<int, int>, data: map<int, seq<Byte>>)

  /** The rings of the service, both program counters, what is in the post, each request's buffer
      field, the requests handed to uv_write, and whatever a failed return lost. */
  datatype Service = Service(
    n: nat, reqFree: Ring<int>, pool: Ring<int>, ready: Ring<int>,
    app: App, io: Io, mail: Mail, reqBuf: map<int, int>, held: seq<int>,
    lostReqs: seq<int>, lostBufs: seq<int>)

  const NULL: int := -1

  function BufferOf(reqBuf: map<int, int>, r: int): int {
    if r in reqBuf then reqBuf[r] else NULL
  }

  function Data(m: Mail, b: int): seq<Byte> { if b in m.data then m.data[b] else [] }

  function ChannelOf(m: Mail, r: int): int { if r in m.chan then m.chan[r] else NULL }

  /** What a request would have sent now. */
  function MessageOf(s: Service, r: int): Message { Message(ChannelOf(s.mail, r), Data(s.mail, BufferOf(s.reqBuf, r))) }

  /** The caller's bytes are appended to buffer b, and request r is addressed. */
  function Post(m: Mail, r: int, b: int): Mail {
    m.(chan := m.chan[r := m.msg.channel], data := m.data[b := Data(m, b) + m.msg.bytes])
  }

  // ------------------------------------------------------------ the two threads

  /** A call of tcp_service_send starts with its arguments, which must name some bytes; peeking a
      buffer empties it. */
  function AppStep(s: Service, m: Message): Service {
    match s.app
    case AIdle =>
      if m.bytes == [] then s else s.(app := APeekReq, mail := s.mail.(msg := m), reqFree := BeginTake(s.reqFree, Peek))
    case APeekReq =>
      if !s.reqFree.cons.CDone? then s.(reqFree := ConsumerStep(s.reqFree))
      else if s.reqFree.cons.got == [] then s.(app := AIdle)
      else
        var r := s.reqFree.cons.got[0];
        s.(app := APeekBuf(r), reqBuf := s.reqBuf[r := NULL], pool := BeginTake(s.pool, Peek))
    case APeekBuf(r) =>
      if !s.pool.cons.CDone? then s.(pool := ConsumerStep(s.pool))
      else if s.pool.cons.got == [] then s.(app := AIdle)
      else
        var b := s.pool.cons.got[0];
        s.(app := AFill(r, b), reqBuf := s.reqBuf[r := b], mail := s.mail.(data := s.mail.data[b := []]))
    case AFill(r, b) =>
      if |Data(s.mail, b)| + |s.mail.msg.bytes| > s.mail.size then s.(app := AIdle)
      else s.(app := APush(r, b), ready := BeginPush(s.ready, r), mail := Post(s.mail, r, b))
    case APush(r, b) =>
      if !s.ready.prod.PDone? then s.(ready := ProducerStep(s.ready))
      else if s.ready.prod.ok then s.(app := APopBuf(r, b), pool := BeginPopCached(s.pool))
      else s.(app := AIdle)
    case APopBuf(r, b) =>
      if !s.pool.cons.CDone? then s.(pool := ConsumerStep(s.pool))
      else s.(app := APopReq(r, b), reqFree := BeginPopCached(s.reqFree))
    case APopReq(r, b) =>
      if !s.reqFree.cons.CDone? then s.(reqFree := ConsumerStep(s.reqFree)) else s.(app := AIdle)
  }

  /** What libuv decides: run the prepare callback, complete the i-th pending write, or the
      fate of the request just drained. */
  datatype IoChoice = Prepare | Complete(i: nat) | ChannelClosed | WriteFails | WriteStarts

  function Resume(s: Service, drain: bool): Service {
    if drain then s.(io := IDrain, ready := BeginTake(s.ready, Take(1))) else s.(io := IIdle)
  }

  function IoStep(s: Service, c: IoChoice): Service {
    match s.io
    case IIdle =>
      (match c
       case Prepare => Resume(s, true)
       case Complete(i) =>
         if i >= |s.held| then s
         else
           var r := s.held[i];
           var b := BufferOf(s.reqBuf, r);
           s.(io := IPushBuf(r, b, false), held := s.held[..i] + s.held[i + 1..],
              reqBuf := s.reqBuf[r := NULL], pool := BeginPush(s.pool, b))
       case _ => s)
    case IDrain =>
      if !s.ready.cons.CDone? then s.(ready := ConsumerStep(s.ready))
      else if s.ready.cons.got == [] then s.(io := IIdle)
      else s.(io := IDispatch(s.ready.cons.got[0]))
    case IDispatch(r) =>
      var b := BufferOf(s.reqBuf, r);
      (match c
       case ChannelClosed => s.(io := IPushBuf(r, b, true), pool := BeginPush(s.pool, b))
       case WriteFails =>
         s.(io := IPushBuf(r, b, true), reqBuf := s.reqBuf[r := NULL], pool := BeginPush(s.pool, b))
       case WriteStarts => Resume(s.(held := s.held + [r]), true)
       case _ => s)
    case IPushBuf(r, b, drain) =>
      if !s.pool.prod.PDone? then s.(pool := ProducerStep(s.pool))
      else
        s.(io := IPushReq(r, drain), reqFree := BeginPush(s.reqFree, r),
           lostBufs := if s.pool.prod.ok then s.lostBufs else s.lostBufs + [b])
    case IPushReq(r, drain) =>
      if !s.reqFree.prod.PDone? then s.(reqFree := ProducerStep(s.reqFree))
      else Resume(s.(lostReqs := if s.reqFree.prod.ok then s.lostReqs else s.lostReqs + [r]), drain)
  }

  datatype Move = AppMove(m: Message) | IoMove(c: IoChoice)

  function Step(s: Service, m: Move): Service {
    match m
    case AppMove(msg) => AppStep(s, msg)
    case IoMove(c) => IoStep(s, c)
  }

  function Run(s: Service, moves: seq<Move>): Service
    decreases |moves|
  {
    if moves == [] then s else Run(Step(s, moves[0]), moves[1..])
  }

  // ------------------------------------------------------------ set-up

  /** A push with nobody else running. */
  function PushAlone(r: Ring<int>, x: int): Ring<int> {
    ProducerStep(ProducerStep(ProducerStep(ProducerStep(BeginPush(r, x)))))
  }

  function Fill(r: Ring<int>, n: nat): Ring<int> {
    if n == 0 then r else PushAlone(Fill(r, n - 1), n - 1)
  }

  /** tcp_service_setup: rings of `cap` slots, requests and buffers 0..n-1 all free,
      the buffers of `size` bytes each. */
  function Start(n: nat, cap: nat, size: nat): Service {
    var empty := Create(seq(cap, i => 0));
    Service(n, Fill(empty, n), Fill(empty, n), empty, AIdle, IIdle, Mail(size, Message(NULL, []), map[], map[]),
            map[], [], [], [])
  }

  lemma {:induction false} PushAloneAppends(r: Ring<int>, x: int)
    requires Inv(r) && MayBeginPush(r) && |Queue(r)| < |r.buf|
    ensures var r' := PushAlone(r, x);
            && Inv(r') && Queue(r') == Queue(r) + [x] && r'.cons == r.cons && r'.prod == PDone(true)
            && |r'.buf| == |r.buf|
  {
    var r0 := BeginPush(r, x);
    assert Inv(r0) && Queue(r0) == Queue(r);
    hide SpscSteps.Inv, SpscSteps.Queue;
    var r1 := ProducerStep(r0);
    var r2 := ProducerStep(r1);
    var r3 := ProducerStep(r2);
    ProducerStepRefines(r0);
    ProducerStepRefines(r1);
    ProducerStepRefines(r2);
    ProducerStepRefines(r3);
  }

  lemma {:induction false} FillQueues(r: Ring<int>, n: nat)
    requires Inv(r) && MayBeginPush(r) && Queue(r) == [] && n <= |r.buf|
    ensures var r' := Fill(r, n);
            && Inv(r') && MayBeginPush(r') && Queue(r') == Ids(n) && r'.cons == r.cons
            && |r'.buf| == |r.buf|
  {
    hide SpscSteps.Inv, SpscSteps.Queue, PushAlone;
    if n > 0 {
      FillQueues(r, n - 1);
      PushAloneAppends(Fill(r, n - 1), n - 1);
      assert Ids(n) == Ids(n - 1) + [n - 1];
    }
  }

  // ------------------------------------------------------------ who owns what

  /** The request is on the ready ring but still shows at the tail of the free ring. */
  ghost predicate ReqWindow(s: Service) {
    || (s.app.APush? && s.ready.prod == PDone(true))
    || s.app.APopBuf?
    || (s.app.APopReq? && !s.reqFree.cons.CDone?)
  }

  ghost predicate BufWindow(s: Service) {
    || (s.app.APush? && s.ready.prod == PDone(true))
    || (s.app.APopBuf? && !s.pool.cons.CDone?)
  }

  /** The free ring without the entry the application still has to pop. */
  ghost function FreeReqs(s: Service): seq<int> {
    var q := Queue(s.reqFree);
    if ReqWindow(s) && q != [] then q[1..] else q
  }

  ghost function FreeBufs(s: Service): seq<int> {
    var q := Queue(s.pool);
    if BufWindow(s) && q != [] then q[1..] else q
  }

  /** The request in the IO thread's hands outside any collection. */
  ghost function HandReq(s: Service): seq<int> {
    match s.io
    case IIdle => []
    case IDrain => if s.ready.cons.CDone? then s.ready.cons.got else []
    case IDispatch(r) => [r]
    case IPushBuf(r, b, d) => [r]
    case IPushReq(r, d) => if s.reqFree.prod == PDone(true) then [] else [r]
  }

  ghost function BufsOf(reqBuf: map<int, int>, rs: seq<int>): seq<int> {
    seq(|rs|, i requires 0 <= i < |rs| => BufferOf(reqBuf, rs[i]))
  }

  ghost function HandBuf(s: Service): seq<int> {
    match s.io
    case IIdle => []
    case IDrain => if s.ready.cons.CDone? then BufsOf(s.reqBuf, s.ready.cons.got) else []
    case IDispatch(r) => [BufferOf(s.reqBuf, r)]
    case IPushBuf(r, b, d) => if s.pool.prod == PDone(true) then [] else [b]
    case IPushReq(r, d) => []
  }

  /** Who has what: the free rings without the window entry, the ready ring, the writes
      libuv holds, the IO thread's hands, and what was lost. */
  datatype Books = Books(
    freeReqs: seq<int>, freeBufs: seq<int>, ready: seq<int>, held: seq<int>,
    handReq: seq<int>, handBuf: seq<int>, lostReqs: seq<int>, lostBufs: seq<int>,
    reqBuf: map<int, int>)

  ghost function BooksOf(s: Service): Books {
    Books(FreeReqs(s), FreeBufs(s), Queue(s.ready), s.held, HandReq(s), HandBuf(s),
          s.lostReqs, s.lostBufs, s.reqBuf)
  }

  /** Every request is in exactly one place. */
  ghost predicate ReqsConserved(n: nat, k: Books) {
    multiset(k.freeReqs) + multiset(k.ready) + multiset(k.held) + multiset(k.handReq) + multiset(k.lostReqs)
    == multiset(Ids(n))
  }

  /** Every write buffer is in exactly one place, attached to its request while that is out. */
  ghost predicate BufsConserved(n: nat, k: Books) {
    multiset(k.freeBufs) + multiset(BufsOf(k.reqBuf, k.ready)) + multiset(BufsOf(k.reqBuf, k.held))
    + multiset(k.handBuf) + multiset(k.lostBufs)
    == multiset(Ids(n))
  }

  ghost predicate Balanced(n: nat, k: Books) { ReqsConserved(n, k) && BufsConserved(n, k) }

  // ------------------------------------------------------------ the invariant

  ghost predicate ConsumerRests(r: Ring<int>) { r.cons.CIdle? || r.cons.CDone? }

  ghost predicate Peeking(r: Ring<int>) {
    match r.cons
    case CLoadTail(op) => op.Peek?
    case CLoadHead(op, t) => op.Peek?
    case CRead(op, t, want, got) => op.Peek? && got == []
    case CDone(got) => got == [] || r.peeked == Oldest(got[0])
    case _ => false
  }

  ghost predicate Pushing(r: Ring<int>, x: int) {
    match r.prod
    case PIdle => false
    case PDone(ok) => true
    case _ => r.prod.x == x
  }

  ghost predicate Draining(r: Ring<int>) {
    match r.cons
    case CLoadTail(op) => op == Take(1)
    case CLoadHead(op, t) => op == Take(1)
    case CRead(op, t, want, got) => op == Take(1) && want == 1
    case CStore(t, got) => |got| == 1
    case CDone(got) => |got| <= 1
    case _ => false
  }

  ghost predicate AppOk(s: Service) {
    match s.app
    case AIdle => ConsumerRests(s.reqFree) && ConsumerRests(s.pool) && MayBeginPush(s.ready)
    case APeekReq => Peeking(s.reqFree) && ConsumerRests(s.pool) && MayBeginPush(s.ready)
    case APeekBuf(r) =>
      && ConsumerRests(s.reqFree) && s.reqFree.peeked == Oldest(r) && Peeking(s.pool) && MayBeginPush(s.ready)
    case AFill(r, b) =>
      && ConsumerRests(s.reqFree) && s.reqFree.peeked == Oldest(r)
      && ConsumerRests(s.pool) && s.pool.peeked == Oldest(b)
      && MayBeginPush(s.ready) && BufferOf(s.reqBuf, r) == b
    case APush(r, b) =>
      && ConsumerRests(s.reqFree) && s.reqFree.peeked == Oldest(r)
      && ConsumerRests(s.pool) && s.pool.peeked == Oldest(b)
      && Pushing(s.ready, r) && s.ready.prod != PDone(false)
      && (!s.ready.prod.PDone? ==> BufferOf(s.reqBuf, r) == b)
    case APopBuf(r, b) =>
      && ConsumerRests(s.reqFree) && s.reqFree.peeked == Oldest(r)
      && (s.pool.cons.CDone? || (s.pool.cons.CPopCached? && s.pool.peeked == Oldest(b)))
      && MayBeginPush(s.ready)
    case APopReq(r, b) =>
      && (s.reqFree.cons.CDone? || (s.reqFree.cons.CPopCached? && s.reqFree.peeked == Oldest(r)))
      && ConsumerRests(s.pool) && MayBeginPush(s.ready)
  }

  ghost predicate IoOk(s: Service) {
    match s.io
    case IIdle => ConsumerRests(s.ready) && MayBeginPush(s.pool) && MayBeginPush(s.reqFree)
    case IDrain => Draining(s.ready) && MayBeginPush(s.pool) && MayBeginPush(s.reqFree)
    case IDispatch(r) => ConsumerRests(s.ready) && MayBeginPush(s.pool) && MayBeginPush(s.reqFree)
    case IPushBuf(r, b, d) => ConsumerRests(s.ready) && Pushing(s.pool, b) && MayBeginPush(s.reqFree)
    case IPushReq(r, d) => ConsumerRests(s.ready) && MayBeginPush(s.pool) && Pushing(s.reqFree, r)
  }

  ghost predicate RingsOk(s: Service) {
    && Inv(s.reqFree) && Inv(s.pool) && Inv(s.ready)
    && |s.reqFree.buf| == |s.pool.buf| == |s.ready.buf| && |s.ready.buf| >= s.n
  }

  /** With a spare slot no return ever fails. */
  ghost predicate NothingLost(s: Service) {
    |s.ready.buf| > s.n ==>
      && s.lostReqs == [] && s.lostBufs == []
      && (s.io.IPushBuf? ==> s.pool.prod != PDone(false))
      && (s.io.IPushReq? ==> s.reqFree.prod != PDone(false))
  }

  ghost predicate Safe(s: Service) {
    RingsOk(s) && AppOk(s) && IoOk(s) && Balanced(s.n, BooksOf(s)) && NothingLost(s)
  }

  lemma {:induction false} StartIsSafe(n: nat, cap: nat, size: nat)
    requires IsPow2(cap) && n <= cap <= TOP_BIT
    ensures Safe(Start(n, cap, size))
  {
    var empty := Create(seq(cap, i => 0));
    CreateInv(seq(cap, i => 0));
    FillQueues(empty, n);
    hide SpscSteps.Inv;
    var k := BooksOf(Start(n, cap, size));
    assert k.ready == [];
    assert BufsOf(k.reqBuf, []) == [];
  }

  // ------------------------------------------------------------ balancing the books

  lemma {:induction false} TakeOutCounts(q: seq<int>, i: nat)
    requires i < |q|
    ensures multiset(q) == multiset{q[i]} + multiset(q[..i] + q[i + 1..])
  {
    assert q == q[..i] + [q[i]] + q[i + 1..];
  }

  lemma {:induction false} BufsOfAppend(reqBuf: map<int, int>, xs: seq<int>, ys: seq<int>)
    ensures BufsOf(reqBuf, xs + ys) == BufsOf(reqBuf, xs) + BufsOf(reqBuf, ys)
  {
  }

  /** Counting one request over all places: it is in at most one. */
  lemma {:induction false} OnePlace(n: nat, k: Books, r: int)
    requires ReqsConserved(n, k)
    ensures multiset(k.freeReqs)[r] + multiset(k.ready)[r] + multiset(k.held)[r] + multiset(k.handReq)[r] <= 1
    ensures r in k.freeReqs ==> 0 <= r < n
  {
    IdsDistinct(n, r);
    var f, q, h, t, l := multiset(k.freeReqs), multiset(k.ready), multiset(k.held), multiset(k.handReq),
        multiset(k.lostReqs);
    assert (f + q + h + t + l)[r] == f[r] + q[r] + h[r] + t[r] + l[r];
  }

  lemma {:induction false} OneBufferPlace(n: nat, k: Books, b: int)
    requires BufsConserved(n, k)
    ensures multiset(k.freeBufs)[b] + multiset(BufsOf(k.reqBuf, k.ready))[b] + multiset(BufsOf(k.reqBuf, k.held))[b]
            + multiset(k.handBuf)[b] <= 1
  {
    IdsDistinct(n, b);
    var f, q, h, t, l := multiset(k.freeBufs), multiset(BufsOf(k.reqBuf, k.ready)), multiset(BufsOf(k.reqBuf, k.held)),
                         multiset(k.handBuf), multiset(k.lostBufs);
    assert (f + q + h + t + l)[b] == f[b] + q[b] + h[b] + t[b] + l[b];
  }

  lemma {:induction false} Sizes(n: nat, k: Books)
    requires Balanced(n, k)
    ensures |k.freeReqs| + |k.ready| + |k.held| + |k.handReq| + |k.lostReqs| == n
    ensures |k.freeBufs| + |k.ready| + |k.held| + |k.handBuf| + |k.lostBufs| == n
  {
    var f, q, h, t, l := multiset(k.freeReqs), multiset(k.ready), multiset(k.held), multiset(k.handReq),
        multiset(k.lostReqs);
    assert |f + q + h + t + l| == |f| + |q| + |h| + |t| + |l|;
    var f', q', h', t', l' := multiset(k.freeBufs), multiset(BufsOf(k.reqBuf, k.ready)),
        multiset(BufsOf(k.reqBuf, k.held)),
                              multiset(k.handBuf), multiset(k.lostBufs);
    assert |f' + q' + h' + t' + l'| == |f'| + |q'| + |h'| + |t'| + |l'|;
  }

  /** Writing the buffer field of a request that is not out. */
  lemma {:induction false} Rewrite(n: nat, k: Books, r: int, b: int)
    requires Balanced(n, k) && r !in k.ready && r !in k.held
    ensures Balanced(n, k.(reqBuf := k.reqBuf[r := b]))
  {
    assert BufsOf(k.reqBuf[r := b], k.ready) == BufsOf(k.reqBuf, k.ready);
    assert BufsOf(k.reqBuf[r := b], k.held) == BufsOf(k.reqBuf, k.held);
  }

  /** The application hands request r with buffer b to the ready ring. */
  lemma {:induction false} Publish(n: nat, k: Books, k': Books, r: int, b: int)
    requires Balanced(n, k) && BufferOf(k.reqBuf, r) == b
    requires k.freeReqs == [r] + k'.freeReqs && k.freeBufs == [b] + k'.freeBufs && k'.ready == k.ready + [r]
    requires k' == k.(freeReqs := k'.freeReqs, freeBufs := k'.freeBufs, ready := k'.ready)
    ensures Balanced(n, k')
  {
    BufsOfAppend(k.reqBuf, k.ready, [r]);
    assert BufsOf(k.reqBuf, [r]) == [b];
    assert multiset(k.freeReqs) == multiset([r]) + multiset(k'.freeReqs);
    assert multiset(k.freeBufs) == multiset([b]) + multiset(k'.freeBufs);
  }

  /** The IO thread takes the oldest ready request into its hands. */
  lemma {:induction false} TakeReady(n: nat, k: Books, k': Books, r: int)
    requires Balanced(n, k) && k.ready == [r] + k'.ready && k.handReq == [] && k.handBuf == []
    requires k' == k.(ready := k'.ready, handReq := [r], handBuf := [BufferOf(k.reqBuf, r)])
    ensures Balanced(n, k')
  {
    BufsOfAppend(k.reqBuf, [r], k'.ready);
    assert BufsOf(k.reqBuf, [r]) == [BufferOf(k.reqBuf, r)];
    assert multiset(k.ready) == multiset([r]) + multiset(k'.ready);
  }

  /** uv_write keeps the request until its callback. */
  lemma {:induction false} Submit(n: nat, k: Books, k': Books, r: int)
    requires Balanced(n, k) && k.handReq == [r] && k.handBuf == [BufferOf(k.reqBuf, r)]
    requires k' == k.(held := k.held + [r], handReq := [], handBuf := [])
    ensures Balanced(n, k')
  {
    BufsOfAppend(k.reqBuf, k.held, [r]);
    assert BufsOf(k.reqBuf, [r]) == [BufferOf(k.reqBuf, r)];
  }

  lemma {:induction false} Unhold(n: nat, k: Books, j: Books, i: nat)
    requires Balanced(n, k) && i < |k.held| && k.handReq == [] && k.handBuf == []
    requires j == k.(held := k.held[..i] + k.held[i + 1..], handReq := [k.held[i]],
                     handBuf := [BufferOf(k.reqBuf, k.held[i])])
    ensures Balanced(n, j)
  {
    TakeOutCounts(k.held, i);
    BufsOfRemove(k.reqBuf, k.held, i);
    assert multiset(j.handReq) == multiset{k.held[i]};
    assert multiset(j.handBuf) == multiset{BufferOf(k.reqBuf, k.held[i])};
  }

  lemma {:induction false} BufsOfRemove(reqBuf: map<int, int>, h: seq<int>, i: nat)
    requires i < |h|
    ensures multiset(BufsOf(reqBuf, h))
            == multiset{BufferOf(reqBuf, h[i])} + multiset(BufsOf(reqBuf, h[..i] + h[i + 1..]))
  {
    assert h == h[..i] + ([h[i]] + h[i + 1..]);
    BufsOfAppend(reqBuf, h[..i], [h[i]] + h[i + 1..]);
    BufsOfAppend(reqBuf, [h[i]], h[i + 1..]);
    BufsOfAppend(reqBuf, h[..i], h[i + 1..]);
    assert BufsOf(reqBuf, [h[i]]) == [BufferOf(reqBuf, h[i])];
  }

  /** The write callback takes the i-th held request back and clears its buffer field. */
  lemma {:induction false} Finish(n: nat, k: Books, k': Books, i: nat)
    requires Balanced(n, k) && i < |k.held| && k.handReq == [] && k.handBuf == []
    requires k' == k.(held := k.held[..i] + k.held[i + 1..], handReq := [k.held[i]],
                      handBuf := [BufferOf(k.reqBuf, k.held[i])], reqBuf := k.reqBuf[k.held[i] := NULL])
    ensures Balanced(n, k')
  {
    var j := k'.(reqBuf := k.reqBuf);
    Unhold(n, k, j, i);
    hide Balanced;
    InHandOnly(n, j, k.held[i]);
    Rewrite(n, j, k.held[i], NULL);
  }

  lemma {:induction false} InHandOnly(n: nat, k: Books, r: int)
    requires Balanced(n, k) && k.handReq == [r]
    ensures r !in k.ready && r !in k.held && r !in k.freeReqs
  {
    OnePlace(n, k, r);
    assert multiset(k.handReq)[r] == 1;
  }

  lemma {:induction false} GiveBackBuf(n: nat, k: Books, k': Books, b: int)
    requires Balanced(n, k) && k.handBuf == [b]
    requires k' == k.(freeBufs := k.freeBufs + [b], handBuf := [])
      || k' == k.(lostBufs := k.lostBufs + [b], handBuf := [])
    ensures Balanced(n, k')
  {
  }

  lemma {:induction false} GiveBackReq(n: nat, k: Books, k': Books, r: int)
    requires Balanced(n, k) && k.handReq == [r]
    requires k' == k.(freeReqs := k.freeReqs + [r], handReq := [])
      || k' == k.(lostReqs := k.lostReqs + [r], handReq := [])
    ensures Balanced(n, k')
  {
  }

  // ------------------------------------------------------------ application steps

  lemma {:induction false} Front(r: Ring<int>)
    requires Inv(r) && r.peeked.Oldest?
    ensures Queue(r) != [] && Queue(r)[0] == r.peeked.value && Queue(r) == [r.peeked.value] + Queue(r)[1..]
  {
  }

  /** The consumer moved and the producer's side stayed as it was. */
  ghost predicate SameProducer(r: Ring<int>, r': Ring<int>) {
    Inv(r') && r'.prod == r.prod && |r'.buf| == |r.buf|
  }

  ghost predicate SameConsumer(r: Ring<int>, r': Ring<int>) {
    Inv(r') && r'.cons == r.cons && r'.peeked == r.peeked && |r'.buf| == |r.buf|
  }

  lemma {:induction false} PeekStep(r: Ring<int>)
    requires Inv(r) && Peeking(r) && !r.cons.CDone?
    ensures var r' := ConsumerStep(r); SameProducer(r, r') && Peeking(r') && Queue(r') == Queue(r)
  {
    ConsumerStepRefines(r);
  }

  lemma {:induction false} PopStep(r: Ring<int>)
    requires Inv(r) && r.cons.CPopCached?
    ensures var r' := ConsumerStep(r);
            SameProducer(r, r') && r'.cons.CDone? && Queue(r) != [] && Queue(r') == Queue(r)[1..]
  {
    ConsumerStepRefines(r);
  }

  lemma {:induction false} DrainStep(r: Ring<int>)
    requires Inv(r) && Draining(r) && !r.cons.CDone?
    ensures var r' := ConsumerStep(r);
            && SameProducer(r, r') && Draining(r')
            && (if r.cons.CStore?
                then r'.cons.CDone? && |r'.cons.got| == 1 && Queue(r) == r'.cons.got + Queue(r')
                else Queue(r') == Queue(r) && (r'.cons.CDone? ==> r'.cons.got == []))
  {
    ConsumerStepRefines(r);
  }

  lemma {:induction false} PushStep(r: Ring<int>, x: int)
    requires Inv(r) && Pushing(r, x) && !r.prod.PDone?
    ensures var r' := ProducerStep(r);
            && SameConsumer(r, r') && Pushing(r', x)
            && (if r.prod.PStore? then Queue(r') == Queue(r) + [x] && r'.prod == PDone(true)
                else Queue(r') == Queue(r) && r'.prod != PDone(true))
            && (|Queue(r)| < |r.buf| ==> r'.prod != PDone(false))
  {
    ProducerStepRefines(r);
  }

  lemma {:induction false} Begins(r: Ring<int>, op: Op, x: int)
    requires Inv(r)
    ensures op.Take? ==> op.limit > 0 ==> SameProducer(r, BeginTake(r, op)) && Queue(BeginTake(r, op)) == Queue(r)
    ensures op.Peek? ==> SameProducer(r, BeginTake(r, op)) && Queue(BeginTake(r, op)) == Queue(r)
    ensures SameConsumer(r, BeginPush(r, x)) && Queue(BeginPush(r, x)) == Queue(r)
    ensures r.peeked.Oldest? ==> SameProducer(r, BeginPopCached(r)) && Queue(BeginPopCached(r)) == Queue(r)
  {
  }

  /** A request the application shows as free and has not published is not in IO hands,
      so writing its buffer field disturbs no books. */
  lemma {:induction false} WriteFree(n: nat, k: Books, r: int, b: int)
    requires Balanced(n, k) && r in k.freeReqs
    ensures r !in k.ready && r !in k.held && r !in k.handReq
    ensures Balanced(n, k.(reqBuf := k.reqBuf[r := b]))
  {
    OnePlace(n, k, r);
    assert multiset(k.freeReqs)[r] >= 1;
    Rewrite(n, k, r, b);
  }

  lemma {:induction false} PeekReqKeepsSafe(s: Service, m: Message)
    requires Safe(s) && s.app.APeekReq? && (!s.reqFree.cons.CDone? || s.reqFree.cons.got == [])
    ensures Safe(AppStep(s, m))
  {
    hide SpscSteps.Inv, SpscSteps.Queue, SpscSteps.ConsumerStep, Balanced;
    if !s.reqFree.cons.CDone? { PeekStep(s.reqFree); }
    assert BooksOf(AppStep(s, m)) == BooksOf(s);
  }

  lemma {:induction false} PeekedReqKeepsSafe(s: Service, m: Message)
    requires Safe(s) && s.app.APeekReq? && s.reqFree.cons.CDone? && s.reqFree.cons.got != []
    ensures Safe(AppStep(s, m))
  {
    hide SpscSteps.Inv, SpscSteps.Queue, SpscSteps.ConsumerStep, Balanced;
    var s', k := AppStep(s, m), BooksOf(s);
    var r := s.reqFree.cons.got[0];
    Front(s.reqFree);
    WriteFree(s.n, k, r, NULL);
    Begins(s.pool, Peek, 0);
    assert HandBuf(s') == HandBuf(s);
    assert BooksOf(s') == k.(reqBuf := k.reqBuf[r := NULL]);
  }

  lemma {:induction false} PeekBufKeepsSafe(s: Service, m: Message)
    requires Safe(s) && s.app.APeekBuf? && (!s.pool.cons.CDone? || s.pool.cons.got == [])
    ensures Safe(AppStep(s, m))
  {
    hide SpscSteps.Inv, SpscSteps.Queue, SpscSteps.ConsumerStep, Balanced;
    if !s.pool.cons.CDone? { PeekStep(s.pool); }
    assert BooksOf(AppStep(s, m)) == BooksOf(s);
  }

  lemma {:induction false} PeekedBufKeepsSafe(s: Service, m: Message)
    requires Safe(s) && s.app.APeekBuf? && s.pool.cons.CDone? && s.pool.cons.got != []
    ensures Safe(AppStep(s, m))
  {
    var s' := AppStep(s, m);
    hide SpscSteps.Inv, SpscSteps.Queue, SpscSteps.ConsumerStep, Balanced;
    var k, r, b := BooksOf(s), s.app.r, s.pool.cons.got[0];
    Front(s.reqFree);
    WriteFree(s.n, k, r, b);
    assert HandBuf(s') == HandBuf(s);
    assert BooksOf(s') == k.(reqBuf := k.reqBuf[r := b]);
  }

  lemma {:induction false} FillKeepsSafe(s: Service, m: Message)
    requires Safe(s) && s.app.AFill?
    ensures Safe(AppStep(s, m))
  {
    hide SpscSteps.Inv, SpscSteps.Queue, Balanced, Data, Post;
    Begins(s.ready, Peek, s.app.r);
    var s' := AppStep(s, m);
    FillBooks(s, m);
    hide BooksOf;
  }

  lemma {:induction false} FillBooks(s: Service, m: Message)
    requires s.app.AFill? && Inv(s.ready) && MayBeginPush(s.ready)
    ensures BooksOf(AppStep(s, m)) == BooksOf(s)
  {
    hide SpscSteps.Inv, SpscSteps.Queue, Data, Post;
    Begins(s.ready, Peek, s.app.r);
    var s' := AppStep(s, m);
    assert s'.io == s.io && s'.reqBuf == s.reqBuf && s'.held == s.held && s'.pool == s.pool && s'.reqFree == s.reqFree;
    assert s'.lostReqs == s.lostReqs && s'.lostBufs == s.lostBufs && s'.ready.cons == s.ready.cons;
    assert !ReqWindow(s) && !ReqWindow(s') && !BufWindow(s) && !BufWindow(s');
    hide AppStep, SpscSteps.BeginPush, ReqWindow, BufWindow;
    assert HandBuf(s') == HandBuf(s);
  }

  lemma {:induction false} PublishBooks(s: Service, s': Service)
    requires s.app.APush? && s.ready.prod.PStore? && Balanced(s.n, BooksOf(s))
    requires s.reqFree.peeked == Oldest(s.app.r) && Inv(s.reqFree)
    requires s.pool.peeked == Oldest(s.app.b) && Inv(s.pool) && BufferOf(s.reqBuf, s.app.r) == s.app.b
    requires s' == s.(ready := s'.ready) && s'.ready.cons == s.ready.cons && s'.ready.prod == PDone(true)
    requires Queue(s'.ready) == Queue(s.ready) + [s.app.r]
    ensures Balanced(s.n, BooksOf(s'))
  {
    hide SpscSteps.Inv, SpscSteps.Queue, Balanced;
    Front(s.reqFree);
    Front(s.pool);
    Publish(s.n, BooksOf(s), BooksOf(s'), s.app.r, s.app.b);
  }

  /** The head store on the ready ring is the hand-over. */
  lemma {:induction false} PublishKeepsSafe(s: Service, m: Message)
    requires Safe(s) && s.app.APush? && s.ready.prod.PStore?
    ensures Safe(AppStep(s, m))
  {
    hide SpscSteps.Inv, SpscSteps.Queue, SpscSteps.ProducerStep, Balanced, BooksOf;
    PushStep(s.ready, s.app.r);
    PublishBooks(s, AppStep(s, m));
  }

  /** The ready push cannot find the ring full. */
  lemma {:induction false} PushKeepsSafe(s: Service, m: Message)
    requires Safe(s) && s.app.APush? && !s.ready.prod.PDone? && !s.ready.prod.PStore?
    ensures Safe(AppStep(s, m))
  {
    var s', k := AppStep(s, m), BooksOf(s);
    hide SpscSteps.Inv, SpscSteps.Queue, SpscSteps.ProducerStep, Balanced;
    assert |k.ready| < |s.ready.buf| by {
      Front(s.reqFree);
      Sizes(s.n, k);
    }
    PushStep(s.ready, s.app.r);
    assert BooksOf(s') == k;
  }

  lemma {:induction false} PopsKeepSafe(s: Service, m: Message)
    requires Safe(s) && ((s.app.APush? && s.ready.prod.PDone?) || s.app.APopBuf? || s.app.APopReq?)
    ensures Safe(AppStep(s, m))
  {
    hide SpscSteps.Inv, SpscSteps.Queue, SpscSteps.ConsumerStep, Balanced;
    Begins(s.pool, Peek, 0);
    Begins(s.reqFree, Peek, 0);
    if s.app.APopBuf? && !s.pool.cons.CDone? { PopStep(s.pool); }
    if s.app.APopReq? && !s.reqFree.cons.CDone? { PopStep(s.reqFree); }
    assert BooksOf(AppStep(s, m)) == BooksOf(s);
  }

  lemma {:induction false} AppStepKeepsSafe(s: Service, m: Message)
    requires Safe(s)
    ensures Safe(AppStep(s, m))
  {
    if s.app.AIdle? {
      hide SpscSteps.Inv, SpscSteps.Queue, Balanced;
      Begins(s.reqFree, Peek, 0);
      assert BooksOf(AppStep(s, m)) == BooksOf(s);
    } else {
      hide *;
      match s.app {
        case APeekReq =>
          if s.reqFree.cons.CDone? && s.reqFree.cons.got != [] { PeekedReqKeepsSafe(s, m); }
          else { PeekReqKeepsSafe(s, m); }
        case APeekBuf(_) =>
          if s.pool.cons.CDone? && s.pool.cons.got != [] { PeekedBufKeepsSafe(s, m); }
          else { PeekBufKeepsSafe(s, m); }
        case AFill(_, _) => FillKeepsSafe(s, m);
        case APush(_, _) => 
          if s.ready.prod.PDone? { PopsKeepSafe(s, m); }
          else if s.ready.prod.PStore? { PublishKeepsSafe(s, m); }
          else { PushKeepsSafe(s, m); }
        case _ => PopsKeepSafe(s, m);
      }
    }
  }

  // ------------------------------------------------------------ IO steps

  /** The request the application is filling is never the one in IO hands. */
  lemma {:induction false} AppKeepsItsRequest(s: Service, r: int)
    requires Safe(s) && (r in s.held || r in HandReq(s) || r in Queue(s.ready))
    ensures (s.app.APeekBuf? || s.app.AFill? || (s.app.APush? && !s.ready.prod.PDone?)) ==> s.app.r != r
  {
    hide SpscSteps.Inv, SpscSteps.Queue, Balanced;
    if (s.app.APeekBuf? || s.app.AFill? || (s.app.APush? && !s.ready.prod.PDone?)) && s.app.r == r {
      Front(s.reqFree);
      WriteFree(s.n, BooksOf(s), r, NULL);
    }
  }

  lemma {:induction false} TakenKeepsSafe(s: Service, c: IoChoice)
    requires Safe(s) && s.io.IDrain? && s.ready.cons.CStore?
    ensures Safe(IoStep(s, c))
  {
    var s' := IoStep(s, c);
    hide SpscSteps.Inv, SpscSteps.Queue, SpscSteps.ConsumerStep, Balanced;
    DrainStep(s.ready);
    var r := s'.ready.cons.got[0];
    assert s'.ready.cons.got == [r];
    assert HandBuf(s') == [BufferOf(s.reqBuf, r)];
    TakeReady(s.n, BooksOf(s), BooksOf(s'), r);
  }

  lemma {:induction false} DrainKeepsSafe(s: Service, c: IoChoice)
    requires Safe(s) && s.io.IDrain? && !s.ready.cons.CStore?
    ensures Safe(IoStep(s, c))
  {
    var s' := IoStep(s, c);
    hide SpscSteps.Inv, SpscSteps.Queue, SpscSteps.ConsumerStep, Balanced;
    if !s.ready.cons.CDone? {
      DrainStep(s.ready);
      assert BufsOf(s.reqBuf, []) == [];
    } else if s.ready.cons.got == [] {
      assert BufsOf(s.reqBuf, []) == [];
    } else {
      var r := s.ready.cons.got[0];
      assert s.ready.cons.got == [r];
      assert BufsOf(s.reqBuf, [r]) == [BufferOf(s.reqBuf, r)];
    }
    assert BooksOf(s') == BooksOf(s);
  }

  lemma {:induction false} DispatchKeepsSafe(s: Service, c: IoChoice)
    requires Safe(s) && s.io.IDispatch?
    ensures Safe(IoStep(s, c))
  {
    if c.WriteFails? {
      hide *;
      FailedWriteKeepsSafe(s, c);
    } else {
      var s' := IoStep(s, c);
      hide SpscSteps.Inv, SpscSteps.Queue, Balanced;
      var r, k := s.io.r, BooksOf(s);
      Begins(s.ready, Take(1), 0);
      Begins(s.pool, Peek, BufferOf(s.reqBuf, r));
      InHandOnly(s.n, k, r);
      if c.WriteStarts? { Submit(s.n, k, BooksOf(s'), r); } else { assert BooksOf(s') == k; }
    }
  }

  lemma {:induction false} FailedWriteKeepsSafe(s: Service, c: IoChoice)
    requires Safe(s) && s.io.IDispatch? && c.WriteFails?
    ensures Safe(IoStep(s, c))
  {
    var s' := IoStep(s, c);
    hide SpscSteps.Inv, SpscSteps.Queue, Balanced;
    var r, k := s.io.r, BooksOf(s);
    Begins(s.ready, Take(1), 0);
    Begins(s.pool, Peek, BufferOf(s.reqBuf, r));
    InHandOnly(s.n, k, r);
    AppKeepsItsRequest(s, r);
    Rewrite(s.n, k, r, NULL);
    assert BooksOf(s') == k.(reqBuf := k.reqBuf[r := NULL]);
  }

  lemma {:induction false} CompleteKeepsSafe(s: Service, c: IoChoice)
    requires Safe(s) && s.io.IIdle?
    ensures Safe(IoStep(s, c))
  {
    var s' := IoStep(s, c);
    hide SpscSteps.Inv, SpscSteps.Queue, Balanced;
    var k := BooksOf(s);
    if c.Complete? && c.i < |s.held| {
      var r := s.held[c.i];
      Begins(s.pool, Peek, BufferOf(s.reqBuf, r));
      AppKeepsItsRequest(s, r);
      Finish(s.n, k, BooksOf(s'), c.i);
    } else {
      Begins(s.ready, Take(1), 0);
      assert BooksOf(s') == k;
    }
  }

  lemma {:induction false} PushBufKeepsSafe(s: Service, c: IoChoice)
    requires Safe(s) && s.io.IPushBuf? && !s.pool.prod.PDone?
    ensures Safe(IoStep(s, c))
  {
    var s' := IoStep(s, c);
    hide SpscSteps.Inv, SpscSteps.Queue, SpscSteps.ProducerStep, Balanced;
    var k, b := BooksOf(s), s.io.b;
    assert |Queue(s.pool)| <= s.n by {
      Sizes(s.n, k);
    }
    if s.pool.peeked.Oldest? { Front(s.pool); }
    PushStep(s.pool, b);
    if s.pool.prod.PStore? { GiveBackBuf(s.n, k, BooksOf(s'), b); } else { assert BooksOf(s') == k; }
  }

  lemma {:induction false} PushedBufKeepsSafe(s: Service, c: IoChoice)
    requires Safe(s) && s.io.IPushBuf? && s.pool.prod.PDone?
    ensures Safe(IoStep(s, c))
  {
    var s' := IoStep(s, c);
    hide SpscSteps.Inv, SpscSteps.Queue, Balanced;
    var k, b := BooksOf(s), s.io.b;
    Begins(s.reqFree, Peek, s.io.r);
    if s.pool.prod.ok { assert BooksOf(s') == k; } else { GiveBackBuf(s.n, k, BooksOf(s'), b); }
  }

  lemma {:induction false} PushReqKeepsSafe(s: Service, c: IoChoice)
    requires Safe(s) && s.io.IPushReq? && !s.reqFree.prod.PDone?
    ensures Safe(IoStep(s, c))
  {
    var s' := IoStep(s, c);
    hide SpscSteps.Inv, SpscSteps.Queue, SpscSteps.ProducerStep, Balanced;
    var k, r := BooksOf(s), s.io.r;
    assert |Queue(s.reqFree)| <= s.n by {
      Sizes(s.n, k);
    }
    if s.reqFree.peeked.Oldest? { Front(s.reqFree); }
    PushStep(s.reqFree, r);
    if s.reqFree.prod.PStore? { GiveBackReq(s.n, k, BooksOf(s'), r); } else { assert BooksOf(s') == k; }
  }

  lemma {:induction false} PushedReqKeepsSafe(s: Service, c: IoChoice)
    requires Safe(s) && s.io.IPushReq? && s.reqFree.prod.PDone?
    ensures Safe(IoStep(s, c))
  {
    var s' := IoStep(s, c);
    hide SpscSteps.Inv, SpscSteps.Queue, Balanced;
    var k, r := BooksOf(s), s.io.r;
    Begins(s.ready, Take(1), 0);
    if s.reqFree.prod.ok { assert BooksOf(s') == k; } else { GiveBackReq(s.n, k, BooksOf(s'), r); }
  }

  lemma {:induction false} IoStepKeepsSafe(s: Service, c: IoChoice)
    requires Safe(s)
    ensures Safe(IoStep(s, c))
  {
    hide *;
    match s.io {
      case IIdle => CompleteKeepsSafe(s, c);
      case IDrain => if s.ready.cons.CStore? { TakenKeepsSafe(s, c); } else { DrainKeepsSafe(s, c); }
      case IDispatch(_) => DispatchKeepsSafe(s, c);
      case IPushBuf(_, _, _) => if s.pool.prod.PDone? { PushedBufKeepsSafe(s, c); } else { PushBufKeepsSafe(s, c); }
      case IPushReq(_, _) => if s.reqFree.prod.PDone? { PushedReqKeepsSafe(s, c); } else { PushReqKeepsSafe(s, c); }
    }
  }

  // ------------------------------------------------------------ every run

  lemma {:induction false} RunKeepsSafe(s: Service, moves: seq<Move>)
    requires Safe(s)
    ensures Safe(Run(s, moves)) && Run(s, moves).n == s.n && |Run(s, moves).ready.buf| == |s.ready.buf|
    decreases |moves|
  {
    if moves != [] {
      var s' := Step(s, moves[0]);
      match moves[0] {
        case AppMove(msg) => AppStepKeepsSafe(s, msg);
        case IoMove(c) => IoStepKeepsSafe(s, c);
      }
      assert s'.n == s.n && |s'.ready.buf| == |s.ready.buf| by { SameRing(s, moves[0]); }
      hide *;
      RunKeepsSafe(s', moves[1..]);
      RunUnfold(s, moves);
    }
  }

  lemma {:induction false} RunUnfold(s: Service, moves: seq<Move>)
    requires moves != []
    ensures Run(s, moves) == Run(Step(s, moves[0]), moves[1..])
  {
  }

  lemma {:induction false} SameRing(s: Service, m: Move)
    ensures Step(s, m).n == s.n && |Step(s, m).ready.buf| == |s.ready.buf|
  {
    match m {
      case AppMove(msg) => AppSameRing(s, msg);
      case IoMove(c) => IoSameRing(s, c);
    }
    hide AppStep, IoStep;
  }

  lemma {:induction false} AppSameRing(s: Service, m: Message)
    ensures AppStep(s, m).n == s.n && |AppStep(s, m).ready.buf| == |s.ready.buf|
  {
    hide SpscSteps.ProducerStep, SpscSteps.ConsumerStep, Data;
    SameSize(s.ready);
  }

  lemma {:induction false} IoSameRing(s: Service, c: IoChoice)
    ensures IoStep(s, c).n == s.n && |IoStep(s, c).ready.buf| == |s.ready.buf|
  {
    hide SpscSteps.ProducerStep, SpscSteps.ConsumerStep, BufferOf;
    SameSize(s.ready);
  }

  lemma {:induction false} SameSize(r: Ring<int>)
    ensures |ProducerStep(r).buf| == |r.buf| && |ConsumerStep(r).buf| == |r.buf|
  {
  }

  /** The application is writing into request r and buffer b. */
  ghost predicate Filling(s: Service) {
    s.app.AFill? || (s.app.APush? && !s.ready.prod.PDone?)
  }

  lemma {:induction false} FillingIsFree(s: Service)
    requires Safe(s) && Filling(s)
    ensures s.app.r in FreeReqs(s) && s.app.b in FreeBufs(s)
  {
    hide SpscSteps.Inv, SpscSteps.Queue, Balanced;
    Front(s.reqFree);
    Front(s.pool);
  }

  lemma {:induction false} FreeItemsAreNotOut(n: nat, k: Books, r: int, b: int)
    requires Balanced(n, k) && r in k.freeReqs && b in k.freeBufs
    ensures r !in k.ready && r !in k.held && r !in k.handReq
    ensures b !in BufsOf(k.reqBuf, k.ready) && b !in BufsOf(k.reqBuf, k.held) && b !in k.handBuf
  {
    OnePlace(n, k, r);
    OneBufferPlace(n, k, b);
    assert multiset(k.freeReqs)[r] >= 1;
    assert multiset(k.freeBufs)[b] >= 1;
  }

  /** In every interleaving: while the application writes a request, from the moment it has
      peeked it until it is published, the request is not on the ready ring, with libuv, or in
      the IO thread's hands; neither is its buffer once it has peeked that; and its push onto
      the ready ring never finds it full. */
  lemma {:induction false} AppOnlyTouchesFreeItems(n: nat, cap: nat, size: nat, moves: seq<Move>)
    requires IsPow2(cap) && n <= cap <= TOP_BIT
    ensures var s := Run(Start(n, cap, size), moves);
            && (Filling(s) || s.app.APeekBuf? ==>
                  && s.app.r !in Queue(s.ready) && s.app.r !in s.held && s.app.r !in HandReq(s))
            && (Filling(s) ==>
                  && s.app.b !in BufsOf(s.reqBuf, Queue(s.ready)) && s.app.b !in BufsOf(s.reqBuf, s.held)
                  && s.app.b !in HandBuf(s))
            && (s.app.APush? ==> s.ready.prod != PDone(false))
  {
    var s := Run(Start(n, cap, size), moves);
    StartIsSafe(n, cap, size);
    RunKeepsSafe(Start(n, cap, size), moves);
    hide SpscSteps.Inv, SpscSteps.Queue, Balanced, FreeReqs, FreeBufs;
    if s.app.APeekBuf? {
      forall r | r in s.held || r in HandReq(s) || r in Queue(s.ready) ensures s.app.r != r {
          AppKeepsItsRequest(s, r); }
    }
    if Filling(s) {
      FillingIsFree(s);
      FreeItemsAreNotOut(s.n, BooksOf(s), s.app.r, s.app.b);
    }
  }

  /** In every interleaving every request and every write buffer is in exactly one of the
      free ring (the window entry aside), the ready ring, libuv, the IO thread's hands, lost. */
  lemma {:induction false} EveryItemInOnePlace(n: nat, cap: nat, size: nat, moves: seq<Move>)
    requires IsPow2(cap) && n <= cap <= TOP_BIT
    ensures var s := Run(Start(n, cap, size), moves); Balanced(n, BooksOf(s))
  {
    StartIsSafe(n, cap, size);
    RunKeepsSafe(Start(n, cap, size), moves);
  }

  // ------------------------------------------------------------ what is sent

  function Messages(s: Service, rs: seq<int>): seq<Message> {
    seq(|rs|, i requires 0 <= i < |rs| => MessageOf(s, rs[i]))
  }

  /** The request drained and not yet decided upon. */
  function InHand(s: Service): seq<int> {
    match s.io
    case IDrain => if s.ready.cons.CDone? then s.ready.cons.got else []
    case IDispatch(r) => [r]
    case _ => []
  }

  /** Published requests that are not yet decided upon, oldest first. */
  ghost function Waiting(s: Service): seq<int> { InHand(s) + Queue(s.ready) }

  ghost predicate Out(s: Service, r: int) { r in s.held || r in Waiting(s) }

  /** The buffer peeked is empty, and holds the caller's bytes while the request is being published. */
  ghost predicate Filled(s: Service) {
    && (s.app.AFill? ==> Data(s.mail, s.app.b) == [])
    && (s.app.APush? && !s.ready.prod.PDone? ==>
          Data(s.mail, s.app.b) == s.mail.msg.bytes && ChannelOf(s.mail, s.app.r) == s.mail.msg.channel)
  }

  // What happens in one step: the message a call publishes, what the environment decides about the
  // request in hand, what libuv is newly given, and what it gives back.

  function PublishedBy(s: Service, m: Move): seq<Message> {
    if m.AppMove? && s.app.APush? && s.ready.prod.PStore? then [s.mail.msg] else []
  }

  function FateBy(s: Service, m: Move): seq<bool> {
    if m.IoMove? && s.io.IDispatch? && m.c in {ChannelClosed, WriteFails, WriteStarts} then [m.c.WriteStarts?] else []
  }

  function HandedBy(s: Service, m: Move): seq<Message> {
    var s' := Step(s, m);
    if |s'.held| > |s.held| then Messages(s', s'.held[|s.held|..]) else []
  }

  function CompletedBy(s: Service, m: Move): seq<Message> {
    if m.IoMove? && s.io.IIdle? && m.c.Complete? && m.c.i < |s.held| then [MessageOf(s, s.held[m.c.i])] else []
  }

  /** The message decided upon. */
  function DecidedBy(s: Service, m: Move): seq<Message> {
    if FateBy(s, m) == [] then [] else [MessageOf(s, s.io.r)]
  }

  ghost predicate SameMessages(s: Service, s': Service, rs: seq<int>) {
    forall i :: 0 <= i < |rs| ==> MessageOf(s', rs[i]) == MessageOf(s, rs[i])
  }

  lemma {:induction false} MessagesSame(s: Service, s': Service, rs: seq<int>)
    requires SameMessages(s, s', rs)
    ensures Messages(s', rs) == Messages(s, rs)
  {
    hide MessageOf;
  }

  lemma {:induction false} MessagesAppend(s: Service, a: seq<int>, b: seq<int>)
    ensures Messages(s, a + b) == Messages(s, a) + Messages(s, b)
  {
    hide MessageOf;
  }

  /** A request that is out is not one that is free, and neither is its buffer. */
  lemma {:induction false} OutIsNotFree(s: Service, r: int, r0: int, b0: int)
    requires Safe(s) && Out(s, r)
    ensures r0 in FreeReqs(s) ==> r != r0
    ensures b0 in FreeBufs(s) ==> BufferOf(s.reqBuf, r) != b0
  {
    hide SpscSteps.Inv, SpscSteps.Queue, FreeReqs, FreeBufs;
    var k := BooksOf(s);
    OnePlace(s.n, k, r);
    OneBufferPlace(s.n, k, b0);
    BufferIsOut(s, r);
    if r0 in FreeReqs(s) { assert multiset(k.freeReqs)[r0] >= 1; }
    if b0 in FreeBufs(s) { assert multiset(k.freeBufs)[b0] >= 1; }
  }

  lemma {:induction false} BufferIsOut(s: Service, r: int)
    requires Out(s, r) && IoOk(s)
    ensures var b := BufferOf(s.reqBuf, r);
            || (r in Queue(s.ready) && b in BufsOf(s.reqBuf, Queue(s.ready)))
            || (r in s.held && b in BufsOf(s.reqBuf, s.held))
            || (r in HandReq(s) && b in HandBuf(s))
  {
    hide SpscSteps.Queue, BufferOf;
    if r in Queue(s.ready) {
      BufIn(s.reqBuf, Queue(s.ready), r);
    } else if r in s.held {
      BufIn(s.reqBuf, s.held, r);
    } else if s.io.IDrain? {
      BufIn(s.reqBuf, s.ready.cons.got, r);
    }
  }

  lemma {:induction false} BufIn(reqBuf: map<int, int>, rs: seq<int>, r: int)
    requires r in rs
    ensures BufferOf(reqBuf, r) in BufsOf(reqBuf, rs)
  {
    var i :| 0 <= i < |rs| && rs[i] == r;
    assert BufsOf(reqBuf, rs)[i] == BufferOf(reqBuf, r);
  }

  // the application's steps

  /** The application writes a free request and a free buffer only. */
  ghost predicate WritesFree(s: Service, s': Service, r: int, b: int) {
    && (s'.reqBuf == s.reqBuf || (r in FreeReqs(s) && s'.reqBuf == s.reqBuf[r := BufferOf(s'.reqBuf, r)]))
    && (s'.mail.chan == s.mail.chan || (r in FreeReqs(s) && s'.mail.chan == s.mail.chan[r := ChannelOf(s'.mail, r)]))
    && (s'.mail.data == s.mail.data || (b in FreeBufs(s) && s'.mail.data == s.mail.data[b := Data(s'.mail, b)]))
  }

  lemma {:induction false} WritesFreeKeeps(s: Service, s': Service, r: int, b: int, rs: seq<int>)
    requires Safe(s) && WritesFree(s, s', r, b) && forall x :: x in rs ==> Out(s, x)
    ensures SameMessages(s, s', rs)
  {
    forall i | 0 <= i < |rs| ensures MessageOf(s', rs[i]) == MessageOf(s, rs[i]) {
      assert Out(s, rs[i]);
      hide Safe, Out, FreeReqs, FreeBufs;
      OutIsNotFree(s, rs[i], r, b);
    }
  }

  /** Which fields an application step writes. */
  lemma {:induction false} AppWrites(s: Service, m: Message)
    ensures var s' := AppStep(s, m);
            && (s.app.APeekReq? && s.reqFree.cons.CDone? && s.reqFree.cons.got != [] ==>
                  s'.reqBuf == s.reqBuf[s.reqFree.cons.got[0] := NULL] && s'.mail == s.mail)
            && (s.app.APeekBuf? && s.pool.cons.CDone? && s.pool.cons.got != [] ==>
                  var b := s.pool.cons.got[0];
                  s'.reqBuf == s.reqBuf[s.app.r := b] && s'.mail == s.mail.(data := s.mail.data[b := []]))
            && (s.app.AFill? ==> s'.reqBuf == s.reqBuf && s'.mail in {s.mail, Post(s.mail, s.app.r, s.app.b)})
            && (!(s.app.APeekReq? && s.reqFree.cons.CDone?) && !(s.app.APeekBuf? && s.pool.cons.CDone?) && !s.app.AFill?
                ==> s'.reqBuf == s.reqBuf && s'.mail.chan == s.mail.chan && s'.mail.data == s.mail.data)
            && (s'.app.AIdle? && !s.app.AFill? ==> s'.reqBuf == s.reqBuf && s'.mail == s.mail)
  {
    hide SpscSteps.ConsumerStep, SpscSteps.ProducerStep, SpscSteps.BeginTake, SpscSteps.BeginPush,
        SpscSteps.BeginPopCached, Data, Post;
  }

  lemma {:induction false} AppWritesFree(s: Service, m: Message) returns (r: int, b: int)
    requires Safe(s)
    ensures WritesFree(s, AppStep(s, m), r, b)
  {
    r, b := 0, 0;
    if s.app.APeekReq? && s.reqFree.cons.CDone? && s.reqFree.cons.got != [] {
      r := s.reqFree.cons.got[0];
      PeekedIsFree(s);
    } else if s.app.APeekBuf? && s.pool.cons.CDone? && s.pool.cons.got != [] {
      r, b := s.app.r, s.pool.cons.got[0];
      PeekedIsFree(s);
    } else if s.app.AFill? {
      r, b := s.app.r, s.app.b;
      FillingIsFree(s);
    }
    AppWrites(s, m);
    hide AppStep, Safe, FreeReqs, FreeBufs;
  }

  /** What the application has just peeked is free. */
  lemma {:induction false} PeekedIsFree(s: Service)
    requires Safe(s)
    ensures s.app.APeekReq? && s.reqFree.cons.CDone? && s.reqFree.cons.got != [] ==>
      s.reqFree.cons.got[0] in FreeReqs(s)
    ensures s.app.APeekBuf? && s.pool.cons.CDone? && s.pool.cons.got != [] ==>
      s.app.r in FreeReqs(s) && s.pool.cons.got[0] in FreeBufs(s)
  {
    hide SpscSteps.Inv, SpscSteps.Queue, Balanced;
    if s.reqFree.peeked.Oldest? { Front(s.reqFree); }
    if s.pool.peeked.Oldest? { Front(s.pool); }
  }

  /** Which ring operation an application step performs on the ready ring. */
  lemma {:induction false} AppReady(s: Service, m: Message)
    ensures var s' := AppStep(s, m);
            && s'.io == s.io && s'.held == s.held
            && s'.ready == (if s.app.APush? && !s.ready.prod.PDone? then ProducerStep(s.ready)
                            else if s.app.AFill? && s'.app.APush? then BeginPush(s.ready, s.app.r) else s.ready)
  {
    hide SpscSteps.ConsumerStep, SpscSteps.ProducerStep, SpscSteps.BeginTake, SpscSteps.BeginPopCached, Data;
  }

  /** What an application step does to the published requests: its head store adds one. */
  lemma {:induction false} AppWaiting(s: Service, m: Message)
    requires RingsOk(s) && AppOk(s)
    ensures var s' := AppStep(s, m);
            && s'.held == s.held
            && Waiting(s') == Waiting(s) + (if s.app.APush? && s.ready.prod.PStore? then [s.app.r] else [])
  {
    AppReady(s, m);
    hide AppStep, SpscSteps.Inv, SpscSteps.Queue, SpscSteps.ProducerStep;
    if s.app.AFill? { Begins(s.ready, Peek, s.app.r); }
    if s.app.APush? && !s.ready.prod.PDone? { PushStep(s.ready, s.app.r); }
    var s' := AppStep(s, m);
    assert s'.ready.cons == s.ready.cons;
    assert InHand(s') == InHand(s);
  }

  /** The fields an application step sets on its way to a push. */
  lemma {:induction false} AppFields(s: Service, m: Message)
    ensures var s' := AppStep(s, m);
            && (s'.app.AFill? ==> Data(s'.mail, s'.app.b) == [] || s' == s)
            && (s'.app.APush? ==>
                  && (s.app.AFill? || s.app.APush?) && s'.mail.msg == s.mail.msg
                  && s'.app.r == s.app.r && s'.app.b == s.app.b)
            && (s.app.AFill? && s'.app.APush? ==>
                  && Data(s'.mail, s.app.b) == Data(s.mail, s.app.b) + s.mail.msg.bytes
                  && ChannelOf(s'.mail, s.app.r) == s.mail.msg.channel)
            && (s.app.APush? ==> s'.mail == s.mail && s'.reqBuf == s.reqBuf)
  {
    hide SpscSteps.ConsumerStep, SpscSteps.ProducerStep, SpscSteps.BeginTake, SpscSteps.BeginPopCached,
        SpscSteps.BeginPush;
  }

  lemma {:induction false} AppKeepsFilled(s: Service, m: Message)
    requires RingsOk(s) && AppOk(s) && Filled(s)
    ensures Filled(AppStep(s, m))
  {
    AppReady(s, m);
    AppFields(s, m);
    hide AppStep, SpscSteps.Inv, SpscSteps.Queue, SpscSteps.ProducerStep;
    if s.app.APush? && !s.ready.prod.PDone? { PushStep(s.ready, s.app.r); }
    assert s.app.AFill? ==> [] + s.mail.msg.bytes == s.mail.msg.bytes;
  }

  lemma {:induction false} PublishesTheCall(s: Service)
    requires Safe(s) && Filled(s) && s.app.APush? && s.ready.prod.PStore?
    ensures MessageOf(s, s.app.r) == s.mail.msg
  {
    hide SpscSteps.Inv, SpscSteps.Queue, Balanced;
  }

  lemma {:induction false} AppSends(s: Service, msg: Message)
    requires Safe(s) && Filled(s)
    ensures var m := AppMove(msg); var s' := Step(s, m);
            && Filled(s') && HandedBy(s, m) == []
            && Messages(s, Waiting(s)) + PublishedBy(s, m) == Messages(s', Waiting(s'))
            && Messages(s', s'.held) == Messages(s, s.held)
  {
    AppKeepsFilled(s, msg);
    AppWaiting(s, msg);
    var s' := AppStep(s, msg);
    var r, b := AppWritesFree(s, msg);
    hide AppStep, SpscSteps.Queue;
    WritesFreeKeeps(s, s', r, b, s.held);
    WritesFreeKeeps(s, s', r, b, Waiting(s));
    MessagesSame(s, s', s.held);
    MessagesSame(s, s', Waiting(s));
    if s.app.APush? && s.ready.prod.PStore? {
      PublishesTheCall(s);
      MessagesAppend(s', Waiting(s), [s.app.r]);
      AppFields(s, msg);
      assert MessageOf(s', s.app.r) == s.mail.msg;
      assert Messages(s', [s.app.r]) == [s.mail.msg];
    }
  }

  // the IO thread's steps

  ghost predicate SameFields(s: Service, s': Service) {
    s'.reqBuf == s.reqBuf && s'.mail == s.mail && s'.held == s.held
  }

  ghost predicate DecidesNow(s: Service, c: IoChoice) {
    s.io.IDispatch? && c in {ChannelClosed, WriteFails, WriteStarts}
  }

  ghost predicate CompletesNow(s: Service, c: IoChoice) { s.io.IIdle? && c.Complete? && c.i < |s.held| }

  /** Outside the decision and the completion the IO thread only moves on. */
  lemma {:induction false} IoFields(s: Service, c: IoChoice)
    requires !DecidesNow(s, c) && !CompletesNow(s, c)
    ensures SameFields(s, IoStep(s, c))
    ensures var s' := IoStep(s, c);
            && s'.ready == (if s.io.IDrain? && !s.ready.cons.CDone? then ConsumerStep(s.ready)
                            else if s'.io.IDrain? && !s.io.IDrain? then BeginTake(s.ready, Take(1)) else s.ready)
            && (s.io.IDrain? ==>
                  s'.io == if !s.ready.cons.CDone? then IDrain else if s.ready.cons.got == [] then IIdle
                           else IDispatch(s.ready.cons.got[0]))
            && (!s.io.IDrain? ==> s'.io.IDrain? || (s'.io.IDispatch? <==> s.io.IDispatch?))
            && (s.io.IDispatch? ==> s' == s)
  {
    hide SpscSteps.ConsumerStep, SpscSteps.ProducerStep, SpscSteps.BeginTake, SpscSteps.BeginPush, BufferOf;
  }

  lemma {:induction false} IoMovesOn(s: Service, c: IoChoice)
    requires RingsOk(s) && IoOk(s) && !DecidesNow(s, c) && !CompletesNow(s, c)
    ensures Waiting(IoStep(s, c)) == Waiting(s) && SameFields(s, IoStep(s, c))
  {
    IoFields(s, c);
    hide IoStep, SpscSteps.Inv, SpscSteps.Queue, SpscSteps.ConsumerStep, SameFields;
    Begins(s.ready, Take(1), 0);
    if s.io.IDrain? && !s.ready.cons.CDone? { DrainStep(s.ready); }
  }

  /** The IO thread leaves the call in progress alone. */
  lemma {:induction false} IoKeepsFilled(s: Service, c: IoChoice)
    requires Filled(s)
    ensures Filled(IoStep(s, c))
  {
    IoKeepsCall(s, c);
    hide IoStep;
  }

  ghost predicate SameCall(s: Service, s': Service) {
    s'.app == s.app && s'.mail.msg == s.mail.msg && s'.mail == s.mail
    && s'.ready.prod == s.ready.prod
  }

  lemma {:induction false} IoKeepsCall(s: Service, c: IoChoice)
    ensures SameCall(s, IoStep(s, c))
  {
    SameProducerSide(s.ready);
    hide SpscSteps.ConsumerStep, SpscSteps.ProducerStep, SpscSteps.BeginTake, SpscSteps.BeginPush, BufferOf;
    if s.io.IPushReq? && s.reqFree.prod.PDone? {
      var t := s.(lostReqs := if s.reqFree.prod.ok then s.lostReqs else s.lostReqs + [s.io.r]);
      ResumeKeepsCall(t, s.io.drain);
      hide Resume;
    } else {
      ResumeKeepsCall(s, true);
      if s.io.IDispatch? { ResumeKeepsCall(s.(held := s.held + [s.io.r]), true); }
      hide Resume;
    }
  }

  lemma {:induction false} ResumeKeepsCall(s: Service, drain: bool)
    ensures SameCall(s, Resume(s, drain))
  {
    SameProducerSide(s.ready);
    hide SpscSteps.BeginTake;
  }

  lemma {:induction false} SameProducerSide(r: Ring<int>)
    ensures ConsumerStep(r).prod == r.prod && BeginTake(r, Take(1)).prod == r.prod
  {
  }

  /** The decision: the request leaves the hand, and libuv has it exactly when the write starts. */
  lemma {:induction false} Decides(s: Service, c: IoChoice)
    requires Safe(s) && s.io.IDispatch? && c in {ChannelClosed, WriteFails, WriteStarts}
    ensures var s', r := IoStep(s, c), s.io.r;
            && Waiting(s) == [r] + Waiting(s')
            && s'.held == s.held + (if c.WriteStarts? then [r] else [])
            && s'.mail == s.mail
            && s'.reqBuf == (if c.WriteFails? then s.reqBuf[r := NULL] else s.reqBuf)
            && r !in s.held && r !in Waiting(s')
  {
    hide SpscSteps.Inv, SpscSteps.Queue, Balanced;
    Begins(s.ready, Take(1), 0);
    InHandOnly(s.n, BooksOf(s), s.io.r);
  }

  lemma {:induction false} DecisionSends(s: Service, c: IoChoice)
    requires Safe(s) && s.io.IDispatch? && c in {ChannelClosed, WriteFails, WriteStarts}
    ensures var m := IoMove(c); var s' := Step(s, m);
            && Messages(s, Waiting(s)) == DecidedBy(s, m) + Messages(s', Waiting(s'))
            && HandedBy(s, m) == (if c.WriteStarts? then DecidedBy(s, m) else [])
            && Messages(s', s'.held) == Messages(s, s.held) + HandedBy(s, m)
  {
    Decides(s, c);
    var s', r := IoStep(s, c), s.io.r;
    hide Safe, IoStep, Waiting;
    MessagesAppend(s, [r], Waiting(s'));
    MessagesSame(s, s', Waiting(s'));
    MessagesSame(s, s', s.held);
    assert Messages(s, [r]) == [MessageOf(s, r)];
    if c.WriteStarts? {
      MessagesAppend(s', s.held, [r]);
      assert MessageOf(s', r) == MessageOf(s, r);
      assert s'.held[|s.held|..] == [r];
    }
  }

  /** The write callback gives back one request; the others are as they were. */
  lemma {:induction false} CompletionSends(s: Service, i: nat)
    requires Safe(s) && s.io.IIdle? && i < |s.held|
    ensures var m := IoMove(Complete(i)); var s' := Step(s, m);
            && Messages(s', Waiting(s')) == Messages(s, Waiting(s)) && HandedBy(s, m) == []
            && multiset(Messages(s, s.held)) == multiset(Messages(s', s'.held)) + multiset(CompletedBy(s, m))
  {
    var s', r, rest := IoStep(s, Complete(i)), s.held[i], s.held[..i] + s.held[i + 1..];
    CompletedIsAlone(s, i);
    CompletedFields(s, i);
    hide Safe, IoStep, SpscSteps.Queue;
    MessagesSame(s, s', Waiting(s));
    MessagesSame(s, s', rest);
    MessagesWithout(s, s.held, i);
  }

  lemma {:induction false} CompletedFields(s: Service, i: nat)
    requires s.io.IIdle? && i < |s.held|
    ensures var s' := IoStep(s, Complete(i));
            && s'.held == s.held[..i] + s.held[i + 1..] && Waiting(s') == Waiting(s)
            && s'.reqBuf == s.reqBuf[s.held[i] := NULL] && s'.mail == s.mail
  {
    hide SpscSteps.Queue, SpscSteps.BeginPush;
  }

  lemma {:induction false} MessagesWithout(s: Service, rs: seq<int>, i: nat)
    requires i < |rs|
    ensures multiset(Messages(s, rs)) == multiset(Messages(s, rs[..i] + rs[i + 1..])) + multiset{MessageOf(s, rs[i])}
  {
    hide MessageOf;
    var r := rs[i];
    assert rs == rs[..i] + ([r] + rs[i + 1..]);
    MessagesAppend(s, rs[..i], [r] + rs[i + 1..]);
    MessagesAppend(s, [r], rs[i + 1..]);
    MessagesAppend(s, rs[..i], rs[i + 1..]);
    assert Messages(s, [r]) == [MessageOf(s, r)];
  }

  lemma {:induction false} CompletedIsAlone(s: Service, i: nat)
    requires Safe(s) && s.io.IIdle? && i < |s.held|
    ensures var r := s.held[i]; r !in Waiting(s) && r !in s.held[..i] + s.held[i + 1..]
  {
    hide SpscSteps.Inv, SpscSteps.Queue;
    var r, k, rest := s.held[i], BooksOf(s), s.held[..i] + s.held[i + 1..];
    OnePlace(s.n, k, r);
    TakeOutCounts(s.held, i);
    assert multiset(s.held)[r] == 1 + multiset(rest)[r];
    assert r in rest ==> multiset(rest)[r] >= 1;
  }

  lemma {:induction false} IoSends(s: Service, c: IoChoice)
    requires Safe(s) && Filled(s)
    ensures var m := IoMove(c); var s' := Step(s, m);
            && Filled(s')
            && Messages(s, Waiting(s)) == DecidedBy(s, m) + Messages(s', Waiting(s'))
            && HandedBy(s, m) == (if FateBy(s, m) == [true] then DecidedBy(s, m) else [])
            && multiset(Messages(s, s.held)) + multiset(HandedBy(s, m))
               == multiset(Messages(s', s'.held)) + multiset(CompletedBy(s, m))
  {
    IoKeepsFilled(s, c);
    if DecidesNow(s, c) {
      hide *;
      IoSendsDecision(s, c);
    } else if CompletesNow(s, c) {
      CompletionSends(s, c.i);
      hide Safe, Filled, IoStep, Waiting, HandedBy, Messages, MessageOf;
    } else {
      IoMovesOn(s, c);
      hide Safe, Filled, IoStep, Waiting;
      var s' := IoStep(s, c);
      MessagesSame(s, s', Waiting(s));
      MessagesSame(s, s', s.held);
      hide Messages, MessageOf;
    }
  }

  lemma {:induction false} IoSendsDecision(s: Service, c: IoChoice)
    requires Safe(s) && DecidesNow(s, c)
    ensures var m := IoMove(c); var s' := Step(s, m);
            && Messages(s, Waiting(s)) == DecidedBy(s, m) + Messages(s', Waiting(s'))
            && HandedBy(s, m) == (if FateBy(s, m) == [true] then DecidedBy(s, m) else [])
            && multiset(Messages(s, s.held)) + multiset(HandedBy(s, m))
               == multiset(Messages(s', s'.held)) + multiset(CompletedBy(s, m))
  {
    DecisionSends(s, c);
    hide Safe, IoStep, Waiting, HandedBy, Messages, MessageOf;
  }

  // whole runs

  function Published(s: Service, moves: seq<Move>): seq<Message>
    decreases |moves|
  {
    if moves == [] then [] else PublishedBy(s, moves[0]) + Published(Step(s, moves[0]), moves[1..])
  }

  function Fates(s: Service, moves: seq<Move>): seq<bool>
    decreases |moves|
  {
    if moves == [] then [] else FateBy(s, moves[0]) + Fates(Step(s, moves[0]), moves[1..])
  }

  function Handed(s: Service, moves: seq<Move>): seq<Message>
    decreases |moves|
  {
    if moves == [] then [] else HandedBy(s, moves[0]) + Handed(Step(s, moves[0]), moves[1..])
  }

  function Completed(s: Service, moves: seq<Move>): seq<Message>
    decreases |moves|
  {
    if moves == [] then [] else CompletedBy(s, moves[0]) + Completed(Step(s, moves[0]), moves[1..])
  }

  /** The messages whose fate is to be written. */
  function Written(ms: seq<Message>, fates: seq<bool>): seq<Message>
    requires |ms| == |fates|
  {
    if ms == [] then [] else (if fates[0] then [ms[0]] else []) + Written(ms[1..], fates[1..])
  }

  /** One step of either thread, in the terms of the run. */
  ghost predicate Sends(s: Service, m: Move, s': Service, decided: seq<Message>) {
    && |decided| == |FateBy(s, m)| <= 1
    && Messages(s, Waiting(s)) + PublishedBy(s, m) == decided + Messages(s', Waiting(s'))
    && HandedBy(s, m) == Written(decided, FateBy(s, m))
    && multiset(Messages(s, s.held)) + multiset(HandedBy(s, m))
       == multiset(Messages(s', s'.held)) + multiset(CompletedBy(s, m))
  }

  lemma {:induction false} StepSends(s: Service, m: Move)
    requires Safe(s) && Filled(s)
    ensures Filled(Step(s, m)) && Sends(s, m, Step(s, m), DecidedBy(s, m))
  {
    hide Safe, Filled, Waiting, AppStep, IoStep, MessageOf, Messages;
    match m {
      case AppMove(msg) => AppSends(s, msg);
      case IoMove(c) => IoSends(s, c);
    }
    assert HandedBy(s, m) == Written(DecidedBy(s, m), FateBy(s, m));
  }

  lemma {:induction false} WrittenAppend(a: seq<Message>, fa: seq<bool>, b: seq<Message>, fb: seq<bool>)
    requires |a| == |fa| && |b| == |fb|
    ensures Written(a + b, fa + fb) == Written(a, fa) + Written(b, fb)
  {
    hide Written;
    if a == [] {
      WrittenNone();
      assert a + b == b && fa + fb == fb;
    } else {
      assert (a + b)[1..] == a[1..] + b && (fa + fb)[1..] == fa[1..] + fb;
      WrittenStep(a, fa);
      WrittenStep(a + b, fa + fb);
      WrittenAppend(a[1..], fa[1..], b, fb);
    }
  }

  lemma {:induction false} WrittenStep(ms: seq<Message>, fates: seq<bool>)
    requires |ms| == |fates| && ms != []
    ensures Written(ms, fates) == (if fates[0] then [ms[0]] else []) + Written(ms[1..], fates[1..])
  {
  }

  lemma {:induction false} RunSends(s: Service, moves: seq<Move>) returns (decided: seq<Message>)
    requires Safe(s) && Filled(s)
    ensures var s' := Run(s, moves);
            && |decided| == |Fates(s, moves)|
            && Messages(s, Waiting(s)) + Published(s, moves) == decided + Messages(s', Waiting(s'))
            && Handed(s, moves) == Written(decided, Fates(s, moves))
            && multiset(Messages(s, s.held)) + multiset(Handed(s, moves))
               == multiset(Messages(s', s'.held)) + multiset(Completed(s, moves))
    decreases |moves|
  {
    hide Safe, Filled, Waiting, Step, Messages, Written, PublishedBy, FateBy, HandedBy, CompletedBy, DecidedBy;
    if moves == [] {
      decided := [];
      WrittenNone();
    } else {
      var m := moves[0];
      var t := Step(s, m);
      StepKeepsSafe(s, m);
      StepSends(s, m);
      var first := DecidedBy(s, m);
      var more := RunSends(t, moves[1..]);
      decided := first + more;
      WrittenAppend(first, FateBy(s, m), more, Fates(t, moves[1..]));
      HeldChain(multiset(Messages(s, s.held)), HandedBy(s, m), multiset(Messages(t, t.held)), CompletedBy(s, m),
          Handed(t, moves[1..]), multiset(Messages(Run(t, moves[1..]), Run(t, moves[1..]).held)),
          Completed(t, moves[1..]));
      Chain(Messages(s, Waiting(s)), PublishedBy(s, m), first, Messages(t, Waiting(t)), Published(t, moves[1..]), more,
          Messages(Run(t, moves[1..]), Waiting(Run(t, moves[1..]))));
    }
  }

  lemma {:induction false} WrittenNone()
    ensures Written([], []) == []
  {
  }

  lemma {:induction false} Chain(w: seq<Message>, p: seq<Message>, d: seq<Message>, w1: seq<Message>, p1: seq<Message>,
      d1: seq<Message>, w2: seq<Message>)
    requires w + p == d + w1 && w1 + p1 == d1 + w2
    ensures w + (p + p1) == (d + d1) + w2
  {
    assert w + (p + p1) == (w + p) + p1;
    assert (d + w1) + p1 == d + (w1 + p1);
    assert d + (d1 + w2) == (d + d1) + w2;
  }

  lemma {:induction false} HeldChain(
      h: multiset<Message>, a: seq<Message>, h1: multiset<Message>, c: seq<Message>, a1: seq<Message>,
      h2: multiset<Message>, c1: seq<Message>)
    requires h + multiset(a) == h1 + multiset(c) && h1 + multiset(a1) == h2 + multiset(c1)
    ensures h + multiset(a + a1) == h2 + multiset(c + c1)
  {
    calc {
      h + multiset(a + a1);
      (h + multiset(a)) + multiset(a1);
      (h1 + multiset(a1)) + multiset(c);
      h2 + multiset(c + c1);
    }
  }

  lemma {:induction false} StepKeepsSafe(s: Service, m: Move)
    requires Safe(s)
    ensures Safe(Step(s, m))
  {
    hide Safe, AppStep, IoStep;
    match m {
      case AppMove(msg) => AppStepKeepsSafe(s, msg);
      case IoMove(c) => IoStepKeepsSafe(s, c);
    }
  }

  /** In every interleaving: the messages handed to uv_write are, in order, those of the successful
      calls that were drained, less those whose channel was closed or whose write failed; the calls
      not yet drained still wait in order with their own channel and bytes; and libuv holds each
      message unchanged from the write until its callback gives it back. */
  lemma {:induction false} SentAsAsked(n: nat, cap: nat, size: nat, moves: seq<Move>)
    requires IsPow2(cap) && n <= cap <= TOP_BIT
    ensures var s0 := Start(n, cap, size); var s := Run(s0, moves);
            var calls, fates, handed := Published(s0, moves), Fates(s0, moves), Handed(s0, moves);
            && |fates| <= |calls|
            && handed == Written(calls[..|fates|], fates)
            && Messages(s, Waiting(s)) == calls[|fates|..]
            && multiset(handed) == multiset(Messages(s, s.held)) + multiset(Completed(s0, moves))
  {
    var s0 := Start(n, cap, size);
    StartIsSafe(n, cap, size);
    StartWaitsForNothing(n, cap, size);
    hide Safe, Filled, Waiting, Run, Messages, Written, Published, Fates, Handed, Completed, Start;
    var decided := RunSends(s0, moves);
    var calls, s := Published(s0, moves), Run(s0, moves);
    assert [] + calls == calls;
    assert calls[..|decided|] == decided && calls[|decided|..] == Messages(s, Waiting(s));
  }

  lemma {:induction false} StartWaitsForNothing(n: nat, cap: nat, size: nat)
    ensures var s0 := Start(n, cap, size);
            Filled(s0) && Messages(s0, Waiting(s0)) == [] && Messages(s0, s0.held) == []
  {
    hide Fill;
  }

  // ------------------------------------------------------------ when returns can fail

  ghost predicate Reaches(s: Service, s': Service) {
    exists moves :: Run(s, moves) == s'
  }

  lemma {:induction false} RunAppend(s: Service, a: seq<Move>, m: Move)
    ensures Run(s, a + [m]) == Step(Run(s, a), m)
    decreases |a|
  {
    if a == [] {
      assert Run(s, [m]) == Run(Step(s, m), [m][1..]);
    } else {
      assert (a + [m])[1..] == a[1..] + [m];
      RunAppend(Step(s, a[0]), a[1..], m);
    }
  }

  lemma {:induction false} Reach(s: Service, s': Service, m: Move)
    requires Reaches(s, s')
    ensures Reaches(s, Step(s', m))
  {
    var moves :| Run(s, moves) == s';
    RunAppend(s, moves, m);
  }

  lemma {:induction false} PeekAlone(r: Ring<int>)
    requires Inv(r) && Queue(r) != []
    ensures var p := ConsumerStep(ConsumerStep(ConsumerStep(BeginTake(r, Peek))));
            SameProducer(r, p) && Queue(p) == Queue(r) && p.cons == CDone([Queue(r)[0]])
                && p.peeked == Oldest(Queue(r)[0])
    ensures !BeginTake(r, Peek).cons.CDone? && !ConsumerStep(BeginTake(r, Peek)).cons.CDone?
    ensures !ConsumerStep(ConsumerStep(BeginTake(r, Peek))).cons.CDone?
  {
    Begins(r, Peek, 0);
    var r0 := BeginTake(r, Peek);
    var r1 := ConsumerStep(r0);
    var r2 := ConsumerStep(r1);
    ConsumerStepRefines(r0);
    ConsumerStepRefines(r1);
    ConsumerStepRefines(r2);
  }

  lemma {:induction false} TakeAlone(r: Ring<int>)
    requires Inv(r) && Queue(r) != []
    ensures var r0 := BeginTake(r, Take(1));
            var r1 := ConsumerStep(r0); var r2 := ConsumerStep(r1); var r3 := ConsumerStep(r2);
            && !r0.cons.CDone? && !r1.cons.CDone? && !r2.cons.CDone? && !r3.cons.CDone?
            && SameProducer(r, ConsumerStep(r3)) && ConsumerStep(r3).cons == CDone([Queue(r)[0]])
            && Queue(ConsumerStep(r3)) == Queue(r)[1..]
  {
    Begins(r, Take(1), 0);
    var r0 := BeginTake(r, Take(1));
    var r1 := ConsumerStep(r0);
    var r2 := ConsumerStep(r1);
    var r3 := ConsumerStep(r2);
    ConsumerStepRefines(r0);
    ConsumerStepRefines(r1);
    ConsumerStepRefines(r2);
    ConsumerStepRefines(r3);
    assert r3.cons.got <= Queue(r);
  }

  lemma {:induction false} FullAlone(r: Ring<int>, x: int)
    requires Inv(r) && |Queue(r)| == |r.buf|
    ensures ProducerStep(ProducerStep(BeginPush(r, x))).prod == PDone(false)
    ensures !BeginPush(r, x).prod.PDone? && !ProducerStep(BeginPush(r, x)).prod.PDone?
  {
    Begins(r, Peek, x);
    ProducerStepRefines(BeginPush(r, x));
    ProducerStepRefines(ProducerStep(BeginPush(r, x)));
  }

  /** From rest the application alone gets as far as holding the oldest free request. */
  lemma {:induction false} ReachPeekedReq(s: Service, s0: Service, msg: Message) returns (s': Service)
    requires Reaches(s, s0) && s0.app.AIdle? && msg.bytes != [] && Inv(s0.reqFree) && Queue(s0.reqFree) != []
    ensures Reaches(s, s')
    ensures var r := Queue(s0.reqFree)[0];
            && s' == s0.(app := APeekBuf(r), mail := s0.mail.(msg := msg), reqBuf := s0.reqBuf[r := NULL],
                         pool := BeginTake(s0.pool, Peek), reqFree := s'.reqFree)
            && SameProducer(s0.reqFree, s'.reqFree) && Queue(s'.reqFree) == Queue(s0.reqFree)
  {
    PeekAlone(s0.reqFree);
    hide SpscSteps.Inv, SpscSteps.Queue, SpscSteps.ConsumerStep, Reaches;
    var m := AppMove(msg);
    var s1 := Step(s0, m);
    var s2 := Step(s1, m);
    var s3 := Step(s2, m);
    var s4 := Step(s3, m);
    s' := Step(s4, m);
    Reach(s, s0, m); Reach(s, s1, m); Reach(s, s2, m); Reach(s, s3, m); Reach(s, s4, m);
  }

  lemma {:induction false} ReachPeekedBuf(s: Service, s0: Service, pool: Ring<int>) returns (s': Service)
    requires Reaches(s, s0) && s0.app.APeekBuf? && s0.pool == BeginTake(pool, Peek) && Inv(pool) && Queue(pool) != []
    requires |s0.mail.msg.bytes| <= s0.mail.size
    ensures Reaches(s, s')
    ensures var b := Queue(pool)[0];
            && s' == s0.(app := APush(s0.app.r, b), reqBuf := s0.reqBuf[s0.app.r := b], pool := s'.pool,
                         mail := s'.mail,
                         ready := BeginPush(s0.ready, s0.app.r))
            && SameProducer(pool, s'.pool) && Queue(s'.pool) == Queue(pool)
    ensures ChannelOf(s'.mail, s0.app.r) == s0.mail.msg.channel
    ensures Data(s'.mail, Queue(pool)[0]) == s0.mail.msg.bytes && s'.mail.msg == s0.mail.msg
  {
    PeekAlone(pool);
    hide SpscSteps.Inv, SpscSteps.Queue, SpscSteps.ConsumerStep, Reaches;
    var m := AppMove(s0.mail.msg);
    var s1 := Step(s0, m);
    var s2 := Step(s1, m);
    var s3 := Step(s2, m);
    var s4 := Step(s3, m);
    s' := Step(s4, m);
    assert [] + s0.mail.msg.bytes == s0.mail.msg.bytes;
    Reach(s, s0, m); Reach(s, s1, m); Reach(s, s2, m); Reach(s, s3, m); Reach(s, s4, m);
  }

  lemma {:induction false} ReachPublished(s: Service, s0: Service, ready: Ring<int>) returns (s': Service)
    requires Reaches(s, s0) && s0.app.APush? && s0.ready == BeginPush(ready, s0.app.r)
    requires Inv(ready) && MayBeginPush(ready) && |Queue(ready)| < |ready.buf|
    ensures Reaches(s, s')
    ensures && s' == s0.(ready := s'.ready) && s'.ready.prod == PDone(true) && Inv(s'.ready)
            && Queue(s'.ready) == Queue(ready) + [s0.app.r]
  {
    PushAloneAppends(ready, s0.app.r);
    PushAloneBusy(ready, s0.app.r);
    hide SpscSteps.Inv, SpscSteps.Queue, SpscSteps.ProducerStep, Reaches;
    var m := AppMove(s0.mail.msg);
    var s1 := Step(s0, m);
    var s2 := Step(s1, m);
    var s3 := Step(s2, m);
    s' := Step(s3, m);
    Reach(s, s0, m); Reach(s, s1, m); Reach(s, s2, m); Reach(s, s3, m);
  }

  lemma {:induction false} PushAloneBusy(r: Ring<int>, x: int)
    requires Inv(r) && MayBeginPush(r) && |Queue(r)| < |r.buf|
    ensures var r0 := BeginPush(r,
      x); var r1 := ProducerStep(r0); var r2 := ProducerStep(r1); var r3 := ProducerStep(r2);
            !r0.prod.PDone? && !r1.prod.PDone? && !r2.prod.PDone? && !r3.prod.PDone?
  {
    Begins(r, Peek, x);
    ProducerStepRefines(BeginPush(r, x));
    ProducerStepRefines(ProducerStep(BeginPush(r, x)));
    ProducerStepRefines(ProducerStep(ProducerStep(BeginPush(r, x))));
  }

  /** The IO thread drains the published request, finds its channel closed, and starts to
      hand the buffer back. */
  lemma {:induction false} ReachReturning(s: Service, s0: Service) returns (s': Service)
    requires Reaches(s, s0) && s0.io.IIdle? && Inv(s0.ready) && Queue(s0.ready) != []
    ensures Reaches(s, s') && s'.io.IPushBuf? && s'.pool == BeginPush(s0.pool, s'.io.b)
    ensures s'.reqFree == s0.reqFree && s'.lostBufs == s0.lostBufs && s'.lostReqs == s0.lostReqs
  {
    TakeAlone(s0.ready);
    hide SpscSteps.Inv, SpscSteps.Queue, SpscSteps.ConsumerStep, Reaches;
    var m, c := IoMove(Prepare), IoMove(ChannelClosed);
    var s1 := Step(s0, m);
    var s2 := Step(s1, m);
    var s3 := Step(s2, m);
    var s4 := Step(s3, m);
    var s5 := Step(s4, m);
    var s6 := Step(s5, m);
    s' := Step(s6, c);
    Reach(s, s0, m); Reach(s, s1, m); Reach(s, s2, m); Reach(s, s3, m);
    Reach(s, s4, m); Reach(s, s5, m); Reach(s, s6, c);
  }

  lemma {:induction false} ReachLostBuf(s: Service, s0: Service, pool: Ring<int>) returns (s': Service)
    requires Reaches(s, s0) && s0.io.IPushBuf? && s0.pool == BeginPush(pool, s0.io.b)
    requires Inv(pool) && |Queue(pool)| == |pool.buf|
    ensures Reaches(s, s') && |s'.lostBufs| == |s0.lostBufs| + 1
    ensures s'.io.IPushReq? && s'.reqFree == BeginPush(s0.reqFree, s'.io.r) && s'.lostReqs == s0.lostReqs
  {
    FullAlone(pool, s0.io.b);
    hide SpscSteps.Inv, SpscSteps.Queue, SpscSteps.ProducerStep, Reaches;
    var m := IoMove(Prepare);
    var s1 := Step(s0, m);
    var s2 := Step(s1, m);
    s' := Step(s2, m);
    Reach(s, s0, m); Reach(s, s1, m); Reach(s, s2, m);
  }

  lemma {:induction false} ReachLostReq(s: Service, s0: Service, free: Ring<int>) returns (s': Service)
    requires Reaches(s, s0) && s0.io.IPushReq? && s0.reqFree == BeginPush(free, s0.io.r)
    requires Inv(free) && |Queue(free)| == |free.buf|
    ensures Reaches(s, s') && |s'.lostReqs| == |s0.lostReqs| + 1 && s'.lostBufs == s0.lostBufs
  {
    FullAlone(free, s0.io.r);
    hide SpscSteps.Inv, SpscSteps.Queue, SpscSteps.ProducerStep, Reaches;
    var m := IoMove(Prepare);
    var s1 := Step(s0, m);
    var s2 := Step(s1, m);
    s' := Step(s2, m);
    Reach(s, s0, m); Reach(s, s1, m); Reach(s, s2, m);
  }

  /** The IO thread alone writes the oldest waiting request. */
  lemma {:induction false} ReachWritten(s: Service, s0: Service, ready: Ring<int>)
      returns (s': Service, ready': Ring<int>)
    requires Reaches(s, s0) && s0.io.IDrain? && s0.ready == BeginTake(ready, Take(1))
    requires Inv(ready) && Queue(ready) != []
    ensures Reaches(s, s') && Inv(ready') && Queue(ready') == Queue(ready)[1..]
    ensures s' == s0.(held := s0.held + [Queue(ready)[0]], ready := BeginTake(ready', Take(1)))
  {
    TakeAlone(ready);
    hide SpscSteps.Inv, SpscSteps.Queue, SpscSteps.ConsumerStep, SpscSteps.BeginTake, Reaches;
    var m, w := IoMove(Prepare), IoMove(WriteStarts);
    var s1 := Step(s0, m);
    var s2 := Step(s1, m);
    var s3 := Step(s2, m);
    var s4 := Step(s3, m);
    var s5 := Step(s4, m);
    ready' := s4.ready;
    s' := Step(s5, w);
    Reach(s, s0, m); Reach(s, s1, m); Reach(s, s2, m); Reach(s, s3, m); Reach(s, s4, m); Reach(s, s5, w);
  }

  lemma {:induction false} EmptyAlone(r: Ring<int>)
    requires Inv(r) && Queue(r) == []
    ensures var r0 := BeginTake(r, Take(1));
            var r1 := ConsumerStep(r0); var r2 := ConsumerStep(r1);
            && !r0.cons.CDone? && !r1.cons.CDone? && r2.cons == CDone([]) && Queue(r2) == []
  {
    Begins(r, Take(1), 0);
    var r0 := BeginTake(r, Take(1));
    ConsumerStepRefines(r0);
    ConsumerStepRefines(ConsumerStep(r0));
  }

  lemma {:induction false} ReachDrained(s: Service, s0: Service, ready: Ring<int>) returns (s': Service)
    requires Reaches(s, s0) && s0.io.IDrain? && s0.ready == BeginTake(ready, Take(1)) && Inv(ready)
    ensures Reaches(s, s') && Queue(s'.ready) == []
    ensures s' == s0.(io := IIdle, ready := s'.ready, held := s0.held + Queue(ready))
    decreases |Queue(ready)|
  {
    if Queue(ready) == [] {
      EmptyAlone(ready);
      hide SpscSteps.Inv, SpscSteps.Queue, SpscSteps.ConsumerStep, SpscSteps.BeginTake, Reaches;
      var m := IoMove(Prepare);
      var s1 := Step(s0, m);
      var s2 := Step(s1, m);
      s' := Step(s2, m);
      Reach(s, s0, m); Reach(s, s1, m); Reach(s, s2, m);
      assert s0.held + [] == s0.held;
    } else {
      hide SpscSteps.Inv, SpscSteps.Queue, SpscSteps.ConsumerStep, SpscSteps.BeginTake, Reaches;
      var q := Queue(ready);
      var s1, ready1 := ReachWritten(s, s0, ready);
      s' := ReachDrained(s, s1, ready1);
      assert s0.held + [q[0]] + q[1..] == s0.held + q;
    }
  }

  /** Nothing stands in the way of a send: from any safe state at rest with a free request and a free
      buffer, there is a run after which libuv holds everything that was waiting and then this
      message, as given. */
  lemma {:induction false} SendReachesLibuv(s: Service, m: Message)
    requires Safe(s) && s.app.AIdle? && s.io.IIdle? && Queue(s.reqFree) != [] && Queue(s.pool) != []
    requires 1 <= |m.bytes| <= s.mail.size
    ensures exists moves :: LibuvHas(s, Run(s, moves), m)
  {
    assert Reaches(s, s) by { assert Run(s, []) == s; }
    ReadyHasRoom(s);
    hide SpscSteps.Inv, SpscSteps.Queue, SpscSteps.BeginTake, SpscSteps.BeginPush, Reaches, Balanced;
    var s1 := ReachPeekedReq(s, s, m);
    var s2 := ReachPeekedBuf(s, s1, s.pool);
    var s3 := ReachPublished(s, s2, s.ready);
    var s4 := Step(s3, IoMove(Prepare));
    Reach(s, s3, IoMove(Prepare));
    var s5 := ReachDrained(s, s4, s3.ready);
    var r := Queue(s.reqFree)[0];
    assert s.held + (Queue(s.ready) + [r]) == s.held + Queue(s.ready) + [r];
    assert LibuvHas(s, s5, m);
    ReachesRun(s, s5);
  }

  ghost predicate LibuvHas(s: Service, s': Service, m: Message)
    requires Queue(s.reqFree) != []
  {
    var r := Queue(s.reqFree)[0];
    s'.held == s.held + Queue(s.ready) + [r] && MessageOf(s', r) == m && Queue(s'.ready) == []
  }

  lemma {:induction false} ReadyHasRoom(s: Service)
    requires Safe(s) && s.app.AIdle? && Queue(s.reqFree) != []
    ensures |Queue(s.ready)| < |s.ready.buf|
  {
    hide SpscSteps.Inv, SpscSteps.Queue;
    Sizes(s.n, BooksOf(s));
  }

  /** With rings exactly as large as the number of items, one send that is interrupted right
      after publishing loses both its request and its buffer. */
  lemma {:induction false} ExactCapacityLoses(n: nat, size: nat)
    requires IsPow2(n) && n <= TOP_BIT && size >= 1
    ensures exists moves :: var s := Run(Start(n, n, size), moves); s.lostReqs != [] && s.lostBufs != []
  {
    var s := Start(n, n, size);
    StartIsSafe(n, n, size);
    assert Reaches(s, s) by { assert Run(s, []) == s; }
    var empty := Create(seq(n, i => 0));
    CreateInv(seq(n, i => 0));
    FillQueues(empty, n);
    hide SpscSteps.Inv, SpscSteps.Queue, Reaches, Safe, Run;
    var s1 := ReachPeekedReq(s, s, Message(0, [0]));
    var s2 := ReachPeekedBuf(s, s1, s.pool);
    var s3 := ReachPublished(s, s2, s.ready);
    var s4 := ReachReturning(s, s3);
    var s5 := ReachLostBuf(s, s4, s3.pool);
    var s6 := ReachLostReq(s, s5, s3.reqFree);
    ReachesRun(s, s6);
  }

  lemma {:induction false} ReachesRun(s: Service, s': Service)
    requires Reaches(s, s')
    ensures exists moves :: Run(s, moves) == s'
  {
  }

  lemma {:induction false} SpareSlotLosesNothing(n: nat, cap: nat, size: nat, moves: seq<Move>)
    requires IsPow2(cap) && n < cap <= TOP_BIT
    ensures var s := Run(Start(n, cap, size), moves); s.lostReqs == [] && s.lostBufs == []
  {
    StartIsSafe(n, cap, size);
    RunKeepsSafe(Start(n, cap, size), moves);
    assert |Start(n, cap, size).ready.buf| == cap;
  }

  /** No interleaving ever loses a request or a buffer exactly when the ring set-up leaves
      a spare slot, that is when the number of items is not a power of two. */
  lemma {:induction false} ReturnsNeverFailIffSpareSlot(n: nat, cap: nat, size: nat)
    requires 1 <= n <= TOP_BIT && SpscQueue.LeastPow2(cap, n) && size >= 1
    ensures (forall moves :: var s := Run(Start(n, cap, size), moves); s.lostReqs == [] && s.lostBufs == [])
            <==> cap > n
    ensures cap > n <==> !IsPow2(n)
  {
    SpscQueue.CapFits(n, cap);
    if cap > n {
      forall moves ensures var s := Run(Start(n, cap, size), moves); s.lostReqs == [] && s.lostBufs == [] {
        SpareSlotLosesNothing(n, cap, size, moves);
      }
    } else {
      ExactCapacityLoses(n, size);
    }
  }

  /** The shipped configuration: 4 * 10000 requests and buffers. */
  lemma {:induction false} DefaultConfigurationNeverLoses(cap: nat, size: nat, moves: seq<Move>)
    requires SpscQueue.LeastPow2(cap, 40000)
    ensures var s := Run(Start(40000, cap, size), moves); s.lostReqs == [] && s.lostBufs == []
  {
    forall k: nat ensures Pow2(k) != 40000 {
      var e := 8;
      assert Pow2(e) == 256;
      Pow2Add(e, e - 1);
      Pow2Order(k, 2 * e);
      Pow2Order(2 * e - 1, k);
    }
    SpscQueue.CapFits(40000, cap);
    SpareSlotLosesNothing(40000, cap, size, moves);
  }
}
