/** The receive side of the service: libuv callbacks on the IO thread
    (src/tcp_service_internal.c), the application's acquire and release of events
    (src/tcp_service.c), and the pools they move items through (src/event.c,
    src/buffer_pool.c, src/tcp_channel.c). Every callback is one atomic step; the
    release loop is one step per event. */
module ReceiveService {
  import opened Sequences

  type Byte = bv8

  datatype Kind = Open | Read | Close

  /** An event record: the client it is about and, for READ, the buffer it carries. */
  datatype Event = Event(client: int, kind: Kind, buf: int)

  /** Free: on the channel list. Live: connected. Closing: uv_close called, its callback
      pending. Dead: closed while no CLOSE event could be sent, never listed again. */
  datatype Phase = Free | Live | Closing | Dead

  datatype Channel = Channel(phase: Phase, buf: int)

  /** What the application sees of an event. */
  datatype Entry = Entry(client: int, kind: Kind, bytes: seq<Byte>)

  const NONE: int := -1

  /** `lost` holds events popped and never pushed; `hist` records each event when it is
      queued, `log` when the application acquires it, `received` the bytes libuv wrote into
      a client's buffers since it connected, `discarded` what its buffer held when it was
      closed. The last four are not read by the code. */
  datatype State = State(
    cap: nat, nBufs: nat, blockSize: nat, nChans: nat,
    free: seq<int>, ready: seq<int>, batch: seq<int>, lost: seq<int>, evt: map<int, Event>,
    pool: seq<int>, data: map<int, seq<Byte>>,
    chan: map<int, Channel>, chanFree: seq<int>,
    hist: seq<Entry>, log: seq<Entry>, received: map<int, seq<Byte>>, discarded: map<int, seq<Byte>>)

  function Data(s: State, b: int): seq<Byte> { if b in s.data then s.data[b] else [] }

  function ChannelAt(s: State, c: int): Channel { if c in s.chan then s.chan[c] else Channel(Free, NONE) }

  function EventAt(s: State, e: int): Event { if e in s.evt then s.evt[e] else Event(NONE, Close, NONE) }

  function Received(s: State, c: int): seq<Byte> { if c in s.received then s.received[c] else [] }

  function Discarded(s: State, c: int): seq<Byte> { if c in s.discarded then s.discarded[c] else [] }

  function Snapshot(s: State, e: int): Entry {
    var v := EventAt(s, e);
    Entry(v.client, v.kind, if v.kind.Read? then Data(s, v.buf) else [])
  }

  // ------------------------------------------------------------ the callbacks

  /** Pops an event, fills it and queues it; None when the free list is empty. A full ready
      ring would lose the event. */
  datatype Queued = Queued(ok: bool, s: State)

  function QueueEvent(s: State, v: Event): Queued {
    if s.free == [] then Queued(false, s)
    else
      var e := s.free[0];
      var s' := s.(free := s.free[1..], evt := s.evt[e := v]);
      if |s.ready| == s.cap then Queued(false, s'.(lost := s.lost + [e]))
      else Queued(true, s'.(ready := s.ready + [e], hist := s.hist + [Snapshot(s', e)]))
  }

  /** The address families a socket can report. */
  datatype Family = Inet | Inet6 | Other

  /** What uv_tcp_getpeername or uv_tcp_getsockname gives. */
  datatype Lookup = NoName | Name(family: Family)

  datatype Endpoint = Unset | Endpoint(family: Family)

  /** tn_endpoint_convert_from, reached only if the lookup succeeded. */
  function ConvertFrom(n: Lookup): Endpoint {
    if n.Name? && (n.family.Inet6? || n.family.Inet?) then Endpoint(n.family) else Unset
  }

  /** tn_endpoint_get_string succeeds. */
  predicate Formats(e: Endpoint) { e.Endpoint? && (e.family.Inet6? || e.family.Inet?) }

  /** The formatting that follows the pop of the OPEN event cannot fail: the conversion before
      the pop made the same test. */
  lemma {:induction false} FormatsOnceConverted(n: Lookup)
    ensures !ConvertFrom(n).Unset? ==> Formats(ConvertFrom(n))
  {
  }

  /** What libuv gives on_connection_cb: whether a handle could be accepted, both lookups, and
      whether reading starts. */
  datatype Attempt = Attempt(accepted: bool, peer: Lookup, local: Lookup, readStarts: bool)

  function OnConnection(s: State, a: Attempt): State {
    if !a.accepted || s.chanFree == [] then s
    else
      var c := s.chanFree[|s.chanFree| - 1];
      var s1 := s.(chanFree := s.chanFree[..|s.chanFree| - 1], chan := s.chan[c := Channel(Live, NONE)],
                   received := s.received[c := []], discarded := s.discarded[c := []]);
      var closing := Channel(Closing, NONE);
      var remote, local := ConvertFrom(a.peer), ConvertFrom(a.local);
      if remote.Unset? || local.Unset? then s1.(chan := s.chan[c := closing])
      else if s.free != [] && !(Formats(local) && Formats(remote)) then
        s1.(chan := s.chan[c := closing], free := s.free[1..], lost := s.lost + [s.free[0]])
      else
        var q := QueueEvent(s1, Event(c, Open, NONE));
        if q.ok && a.readStarts then q.s else q.s.(chan := s.chan[c := closing])
  }

  function OnRecvAlloc(s: State, c: int): State {
    var ch := ChannelAt(s, c);
    if !ch.phase.Live? || ch.buf != NONE || s.pool == [] then s
    else
      var b := s.pool[0];
      s.(pool := s.pool[1..], data := s.data[b := []], chan := s.chan[c := ch.(buf := b)])
  }

  /** nread < 0: libuv reports an error. */
  function OnRecvError(s: State, c: int): State {
    var ch := ChannelAt(s, c);
    if !ch.phase.Live? then s else s.(chan := s.chan[c := ch.(phase := Closing)])
  }

  /** nread = |bytes| > 0 into the buffer on_recv_alloc_cb offered. */
  function OnRecv(s: State, c: int, bytes: seq<Byte>): State {
    var ch := ChannelAt(s, c);
    if !ch.phase.Live? || ch.buf == NONE || bytes == [] || |Data(s, ch.buf)| + |bytes| > s.blockSize then s
    else
      var s1 := s.(data := s.data[ch.buf := Data(s, ch.buf) + bytes],
                   received := s.received[c := Received(s, c) + bytes]);
      var q := QueueEvent(s1, Event(c, Read, ch.buf));
      if q.ok then q.s.(chan := s.chan[c := ch.(buf := NONE)]) else q.s
  }

  /** The buffer of a closed channel goes back to the pool, whatever it holds. */
  function Returned(s: State, c: int): State {
    var b := ChannelAt(s, c).buf;
    if b == NONE then s else s.(pool := s.pool + [b], discarded := s.discarded[c := Data(s, b)])
  }

  function OnClose(s: State, c: int): State {
    var ch := ChannelAt(s, c);
    if !ch.phase.Closing? then s
    else
      var s1 := Returned(s, c);
      if s.free == [] then s1.(chan := s.chan[c := Channel(Dead, NONE)])
      else
        var q := QueueEvent(s1, Event(c, Close, NONE));
        var s2 := q.s.(chan := s.chan[c := Channel(Free, NONE)]);
        if |s.chanFree| >= s.nChans then s2 else s2.(chanFree := s.chanFree + [c])
  }

  /** tcp_service_events_acquire: up to buffer_count ready events become the batch. */
  function Acquire(s: State): State {
    if s.batch != [] then s
    else
      var n := if s.nBufs < |s.ready| then s.nBufs else |s.ready|;
      s.(batch := s.ready[..n], ready := s.ready[n..], log := s.log + Snapshots(s, s.ready[..n]))
  }

  function PoolAfterRelease(s: State): seq<int>
    requires s.batch != []
  {
    var v := EventAt(s, s.batch[0]);
    if v.kind.Read? then s.pool + [v.buf] else s.pool
  }

  /** One turn of the loop in tcp_service_events_release. */
  function ReleaseOne(s: State): State {
    if s.batch == [] then s
    else
      var full := |s.free| == s.cap;
      s.(pool := PoolAfterRelease(s), batch := s.batch[1..],
         free := if full then s.free else s.free + [s.batch[0]],
         lost := if full then s.lost + [s.batch[0]] else s.lost)
  }

  function Snapshots(s: State, es: seq<int>): seq<Entry> {
    seq(|es|, i requires 0 <= i < |es| => Snapshot(s, es[i]))
  }

  datatype Move =
    | Connection(a: Attempt) | RecvAlloc(c: int) | RecvError(c: int) | Recv(c: int, bytes: seq<Byte>)
    | Closed(c: int) | AcquireEvents | ReleaseEvent

  function Step(s: State, m: Move): State {
    match m
    case Connection(a) => OnConnection(s, a)
    case RecvAlloc(c) => OnRecvAlloc(s, c)
    case RecvError(c) => OnRecvError(s, c)
    case Recv(c, bytes) => OnRecv(s, c, bytes)
    case Closed(c) => OnClose(s, c)
    case AcquireEvents => Acquire(s)
    case ReleaseEvent => ReleaseOne(s)
  }

  function Run(s: State, moves: seq<Move>): State
    decreases |moves|
  {
    if moves == [] then s else Run(Step(s, moves[0]), moves[1..])
  }

  // ------------------------------------------------------------ who owns what

  /** Every event is in exactly one of {free, ready, acquired batch, lost}. */
  ghost predicate EventsOk(s: State) {
    multiset(s.free) + multiset(s.ready) + multiset(s.batch) + multiset(s.lost) == multiset(Ids(s.cap))
  }

  ghost function One(b: int): multiset<int> { if b == NONE then multiset{} else multiset{b} }

  /** The read buffers held by channels 0..n-1. */
  ghost function Held(chan: map<int, Channel>, n: nat): multiset<int> {
    if n == 0 then multiset{}
    else Held(chan, n - 1) + HeldBy(chan, n - 1)
  }

  /** The read buffers carried by the READ events in `es`. */
  ghost function Carried(evt: map<int, Event>, es: seq<int>): multiset<int> {
    if es == [] then multiset{}
    else Carried(evt, es[..|es| - 1]) + CarriedBy(evt, es[|es| - 1])
  }

  ghost function CarriedBy(evt: map<int, Event>, e: int): multiset<int> {
    if e in evt && evt[e].kind.Read? then multiset{evt[e].buf} else multiset{}
  }

  /** Every read buffer is in exactly one of {pool, a channel, a queued or acquired READ event}. */
  ghost predicate BufsOk(s: State) {
    multiset(s.pool) + Held(s.chan, s.nChans) + Carried(s.evt, s.ready) + Carried(s.evt, s.batch)
    == multiset(Ids(s.nBufs))
  }

  ghost predicate Distinct(q: seq<int>) { forall i, j :: 0 <= i < j < |q| ==> q[i] != q[j] }

  /** The channel list holds exactly the free channels, once each. */
  ghost predicate ChansOk(s: State) {
    && (forall c :: c in s.chan ==> 0 <= c < s.nChans)
    && Distinct(s.chanFree)
    && (forall c :: c in s.chanFree <==> 0 <= c < s.nChans && ChannelAt(s, c).phase.Free?)
    && (forall c :: c in s.chan && (s.chan[c].phase.Free? || s.chan[c].phase.Dead?) ==> s.chan[c].buf == NONE)
  }

  /** What the application has seen is what was queued, in order and with the bytes it was
      queued with; the rest is still on the ready ring. */
  ghost predicate LogOk(s: State) {
    s.hist == s.log + Snapshots(s, s.ready)
  }

  // ------------------------------------------------------------ sessions

  /** One client's place in its event sequence: between connections, with the payload bytes of
      the last one; inside one with the payload bytes so far; or out of step. */
  datatype Scan = Outside(last: seq<Byte>) | Inside(bytes: seq<Byte>) | Bad

  function Next(p: Scan, e: Entry): Scan {
    match (p, e.kind)
    case (Outside(_), Open) => Inside([])
    case (Outside(_), Close) => Outside([])
    case (Inside(bs), Read) => Inside(bs + e.bytes)
    case (Inside(bs), Close) => Outside(bs)
    case _ => Bad
  }

  function After(h: seq<Entry>, c: int): Scan {
    if h == [] then Outside([])
    else
      var e := h[|h| - 1];
      var p := After(h[..|h| - 1], c);
      if e.client == c then Next(p, e) else p
  }

  function InBuffer(s: State, ch: Channel): seq<Byte> { if ch.buf == NONE then [] else Data(s, ch.buf) }

  /** The payloads queued for a client since it connected, followed by the bytes still in its
      channel's buffer or discarded with it, are exactly the bytes received; a client whose OPEN
      was never queued has received nothing. */
  ghost predicate SessionOk(s: State, c: int) {
    var ch := ChannelAt(s, c);
    var p := After(s.hist, c);
    match ch.phase
    case Free => p.Outside? && p.last + Discarded(s, c) == Received(s, c)
    case Live => p.Inside? && p.bytes + InBuffer(s, ch) == Received(s, c) && Discarded(s, c) == []
    case Closing =>
      && Discarded(s, c) == []
      && ((p.Outside? && InBuffer(s, ch) == [] == Received(s, c))
          || (p.Inside? && p.bytes + InBuffer(s, ch) == Received(s, c)))
    case Dead =>
      || (p.Outside? && Received(s, c) == [])
      || (p.Inside? && p.bytes + Discarded(s, c) == Received(s, c))
  }

  ghost predicate SessionsOk(s: State) { forall c :: SessionOk(s, c) }

  ghost predicate Good(s: State) {
    EventsOk(s) && BufsOk(s) && ChansOk(s) && LogOk(s) && SessionsOk(s)
  }

  // ------------------------------------------------------------ counting facts

  /** A distinct sequence of numbers below n has at most n entries. */
  lemma {:induction false} DistinctBelow(q: seq<int>, n: nat)
    requires Distinct(q) && forall i :: 0 <= i < |q| ==> 0 <= q[i] < n
    ensures |q| <= n
  {
    if q != [] {
      assert 0 <= q[0] < n;
      if k :| 0 <= k < |q| && q[k] == n - 1 {
        var r := q[..k] + q[k + 1..];
        assert forall i :: 0 <= i < |r| ==> r[i] == q[if i < k then i else i + 1];
        DistinctBelow(r, n - 1);
      } else {
        DistinctBelow(q, n - 1);
      }
    }
  }

  lemma {:induction false} HeldFrame(chan: map<int, Channel>, n: nat, c: int, ch: Channel)
    requires !(0 <= c < n)
    ensures Held(chan[c := ch], n) == Held(chan, n)
  {
    if n > 0 { HeldFrame(chan, n - 1, c, ch); }
  }

  ghost function HeldBy(chan: map<int, Channel>, c: int): multiset<int> {
    if c in chan then One(chan[c].buf) else multiset{}
  }

  lemma {:induction false} HeldUpdate(chan: map<int, Channel>, n: nat, c: int, ch: Channel)
    requires 0 <= c < n
    ensures Held(chan[c := ch], n) + HeldBy(chan, c) == Held(chan, n) + One(ch.buf)
  {
    var d := HeldBy(chan, n - 1);
    if c == n - 1 {
      HeldFrame(chan, n - 1, c, ch);
      Exchange(Held(chan, n - 1), multiset{}, Held(chan, n - 1), One(ch.buf), d);
    } else {
      HeldUpdate(chan, n - 1, c, ch);
      assert HeldBy(chan[c := ch], n - 1) == d;
      hide One, HeldBy;
      Exchange(Held(chan[c := ch], n - 1), HeldBy(chan, c), Held(chan, n - 1), One(ch.buf), d);
    }
  }

  lemma {:induction false} Exchange(
      a: multiset<int>, b: multiset<int>, a': multiset<int>, b': multiset<int>, d: multiset<int>)
    ensures a + b == a' + b' ==> a + d + b == a' + d + b'
    ensures a + b' + d == a + d + b'
  {
    assert a + d + b == (a + b) + d;
    assert a' + d + b' == (a' + b') + d;
  }

  /** How the held buffers change with one channel's buffer. */
  lemma {:induction false} HeldChange(chan: map<int, Channel>, n: nat, c: int, ch: Channel)
    requires 0 <= c < n
    ensures HeldBy(chan, c) == One(ch.buf) ==> Held(chan[c := ch], n) == Held(chan, n)
    ensures HeldBy(chan, c) == multiset{} ==> Held(chan[c := ch], n) == Held(chan, n) + One(ch.buf)
    ensures ch.buf == NONE ==> Held(chan, n) == Held(chan[c := ch], n) + HeldBy(chan, c)
  {
    HeldUpdate(chan, n, c, ch);
    Cancel(Held(chan[c := ch], n), Held(chan, n), HeldBy(chan, c));
  }

  lemma {:induction false} Cancel(a: multiset<int>, b: multiset<int>, d: multiset<int>)
    ensures a + d == b + d ==> a == b
  {
    if a + d == b + d {
      forall x ensures a[x] == b[x] { assert (a + d)[x] == (b + d)[x]; }
    }
  }

  lemma {:induction false} HeldHas(chan: map<int, Channel>, n: nat, c: int)
    requires c in chan && 0 <= c < n && chan[c].buf != NONE
    ensures Held(chan, n)[chan[c].buf] >= 1
  {
    if c < n - 1 { HeldHas(chan, n - 1, c); }
  }

  lemma {:induction false} CarriedHas(evt: map<int, Event>, es: seq<int>, i: nat)
    requires i < |es| && es[i] in evt && evt[es[i]].kind.Read?
    ensures Carried(evt, es)[evt[es[i]].buf] >= 1
  {
    if i < |es| - 1 { CarriedHas(evt, es[..|es| - 1], i); }
  }

  lemma {:induction false} CarriedAppend(evt: map<int, Event>, es: seq<int>, e: int)
    ensures Carried(evt, es + [e]) == Carried(evt, es) + CarriedBy(evt, e)
  {
    assert (es + [e])[..|es|] == es;
  }

  lemma {:induction false} CarriedConcat(evt: map<int, Event>, a: seq<int>, b: seq<int>)
    ensures Carried(evt, a + b) == Carried(evt, a) + Carried(evt, b)
  {
    if b == [] {
      assert a + b == a;
    } else {
      var m := |b| - 1;
      assert (a + b)[..|a + b| - 1] == a + b[..m];
      CarriedConcat(evt, a, b[..m]);
    }
  }

  lemma {:induction false} CarriedFrame(evt: map<int, Event>, es: seq<int>, e: int, v: Event)
    requires e !in es
    ensures Carried(evt[e := v], es) == Carried(evt, es)
  {
    if es != [] { CarriedFrame(evt, es[..|es| - 1], e, v); }
  }

  /** Events are in one place only. */
  lemma {:induction false} EventOnePlace(s: State, e: int)
    requires EventsOk(s)
    ensures multiset(s.free)[e] + multiset(s.ready)[e] + multiset(s.batch)[e] + multiset(s.lost)[e] <= 1
    ensures |s.free| + |s.ready| + |s.batch| + |s.lost| == s.cap
  {
    IdsDistinct(s.cap, e);
    var f, r, b, l := multiset(s.free), multiset(s.ready), multiset(s.batch), multiset(s.lost);
    assert (f + r + b + l)[e] == f[e] + r[e] + b[e] + l[e];
    assert |f + r + b + l| == |f| + |r| + |b| + |l|;
  }

  lemma {:induction false} BufOnePlace(s: State, b: int)
    requires BufsOk(s)
    ensures var n :=
        multiset(s.pool)[b] + Held(s.chan, s.nChans)[b] + Carried(s.evt, s.ready)[b] + Carried(s.evt, s.batch)[b];
      n <= 1 && (n >= 1 ==> 0 <= b)
  {
    IdsDistinct(s.nBufs, b);
    var p, h, r, a := multiset(s.pool), Held(s.chan, s.nChans), Carried(s.evt, s.ready), Carried(s.evt, s.batch);
    assert (p + h + r + a)[b] == p[b] + h[b] + r[b] + a[b];
  }

  // ------------------------------------------------------------ the parts, step by step

  lemma {:induction false} AfterAppend(h: seq<Entry>, e: Entry, c: int)
    ensures After(h + [e], c) == if e.client == c then Next(After(h, c), e) else After(h, c)
  {
    assert (h + [e])[..|h|] == h;
  }

  /** The oldest free event is nowhere else. */
  lemma {:induction false} FreshEvent(s: State)
    requires EventsOk(s) && s.free != []
    ensures var e := s.free[0]; e !in s.ready && e !in s.batch
    ensures |s.ready| < s.cap
    ensures multiset(s.free) == multiset{s.free[0]} + multiset(s.free[1..])
  {
    var e := s.free[0];
    EventOnePlace(s, e);
    assert s.free == [e] + s.free[1..];
    assert multiset(s.free)[e] >= 1;
  }

  /** The state after an event was queued. */
  function AfterQueue(s: State, v: Event): State
    requires s.free != []
  {
    s.(free := s.free[1..], evt := s.evt[s.free[0] := v], ready := s.ready + [s.free[0]],
       hist := s.hist + [Entry(v.client, v.kind, if v.kind.Read? then Data(s, v.buf) else [])])
  }

  /** An event can be queued whenever one is free: the ready ring has room for all of them. */
  lemma {:induction false} QueueSucceeds(s: State, v: Event)
    requires EventsOk(s)
    ensures QueueEvent(s, v) == if s.free == [] then Queued(false, s) else Queued(true, AfterQueue(s, v))
  {
    if s.free != [] { FreshEvent(s); }
  }

  lemma {:induction false} QueueKeepsEvents(s: State, v: Event)
    requires EventsOk(s) && s.free != []
    ensures EventsOk(AfterQueue(s, v))
  {
    FreshEvent(s);
    var s' := AfterQueue(s, v);
    assert multiset(s'.ready) == multiset(s.ready) + multiset{s.free[0]};
  }

  lemma {:induction false} QueueKeepsLog(s: State, v: Event)
    requires EventsOk(s) && LogOk(s) && s.free != []
    ensures LogOk(AfterQueue(s, v))
  {
    FreshEvent(s);
    var e, s' := s.free[0], AfterQueue(s, v);
    assert s'.hist == s.hist + [Snapshot(s', e)];
    assert Snapshots(s', s.ready) == Snapshots(s, s.ready);
    assert Snapshots(s', s'.ready) == Snapshots(s', s.ready) + [Snapshot(s', e)];
  }

  lemma {:induction false} QueueCarries(s: State, v: Event)
    requires EventsOk(s) && s.free != []
    ensures var s' := AfterQueue(s, v);
            && Carried(s'.evt, s'.batch) == Carried(s.evt, s.batch)
            && Carried(s'.evt, s'.ready)
                == Carried(s.evt, s.ready) + (if v.kind.Read? then multiset{v.buf} else multiset{})
  {
    FreshEvent(s);
    hide EventsOk;
    CarriedFrame(s.evt, s.batch, s.free[0], v);
    CarriedFrame(s.evt, s.ready, s.free[0], v);
    CarriedAppend(AfterQueue(s, v).evt, s.ready, s.free[0]);
  }

  /** Only the client of the new entry moves in its session. */
  lemma {:induction false} QueueScans(s: State, v: Event, c: int)
    requires s.free != []
    ensures var e := Entry(v.client, v.kind, if v.kind.Read? then Data(s, v.buf) else []);
            After(AfterQueue(s, v).hist, c) == if v.client == c then Next(After(s.hist, c), e) else After(s.hist, c)
  {
    AfterAppend(s.hist, Entry(v.client, v.kind, if v.kind.Read? then Data(s, v.buf) else []), c);
  }

  lemma {:induction false} HeldTwice(chan: map<int, Channel>, n: nat, c: int, d: int, b: int)
    requires c in chan && d in chan && 0 <= c < d < n && chan[c].buf == b && chan[d].buf == b && b != NONE
    ensures Held(chan, n)[b] >= 2
  {
    hide Held, HeldBy;
    HeldStep(chan, n, b);
    if d < n - 1 {
      HeldTwice(chan, n - 1, c, d, b);
    } else {
      HeldByHas(chan, d);
      HeldHas(chan, n - 1, c);
    }
  }

  lemma {:induction false} HeldByHas(chan: map<int, Channel>, d: int)
    requires d in chan && chan[d].buf != NONE
    ensures HeldBy(chan, d)[chan[d].buf] == 1
  {
  }

  lemma {:induction false} HeldStep(chan: map<int, Channel>, n: nat, b: int)
    requires n > 0
    ensures Held(chan, n)[b] == Held(chan, n - 1)[b] + HeldBy(chan, n - 1)[b]
  {
  }

  /** Buffer b is not with any channel except possibly c, and with no queued event. */
  ghost predicate Private(s: State, c: int, b: int) {
    && (forall d :: d in s.chan && d != c ==> s.chan[d].buf != b)
    && (forall i :: 0 <= i < |s.ready| && EventAt(s, s.ready[i]).kind.Read? && s.ready[i] in s.evt ==>
        EventAt(s, s.ready[i]).buf != b)
  }

  lemma {:induction false} PooledIsPrivate(s: State, c: int, b: int)
    requires BufsOk(s) && ChansOk(s) && b in s.pool
    ensures Private(s, c, b) && b != NONE && (c in s.chan ==> s.chan[c].buf != b)
  {
    BufOnePlace(s, b);
    assert multiset(s.pool)[b] >= 1;
    forall d | d in s.chan ensures s.chan[d].buf != b {
      if s.chan[d].buf == b { HeldHas(s.chan, s.nChans, d); }
    }
    forall i | 0 <= i < |s.ready| && s.ready[i] in s.evt && s.evt[s.ready[i]].kind.Read?
        ensures s.evt[s.ready[i]].buf != b {
      if s.evt[s.ready[i]].buf == b { CarriedHas(s.evt, s.ready, i); }
    }
  }

  lemma {:induction false} HeldIsPrivate(s: State, c: int)
    requires BufsOk(s) && ChansOk(s) && c in s.chan && s.chan[c].buf != NONE
    ensures Private(s, c, s.chan[c].buf)
  {
    var b := s.chan[c].buf;
    BufOnePlace(s, b);
    HeldHas(s.chan, s.nChans, c);
    forall d | d in s.chan && d != c ensures s.chan[d].buf != b {
      if s.chan[d].buf == b {
        if c < d { HeldTwice(s.chan, s.nChans, c, d, b); } else { HeldTwice(s.chan, s.nChans, d, c, b); }
      }
    }
    forall i | 0 <= i < |s.ready| && s.ready[i] in s.evt && s.evt[s.ready[i]].kind.Read?
        ensures s.evt[s.ready[i]].buf != b {
      if s.evt[s.ready[i]].buf == b { CarriedHas(s.evt, s.ready, i); }
    }
  }

  /** Writing a buffer nobody queued leaves the queued payloads alone. */
  lemma {:induction false} WriteKeepsLog(s: State, s': State, c: int, b: int)
    requires LogOk(s) && Private(s, c, b)
    requires s'.evt == s.evt && s'.ready == s.ready && s'.hist == s.hist && s'.log == s.log
    requires s'.data == s.data[b := Data(s', b)]
    ensures LogOk(s')
  {
    forall i | 0 <= i < |s.ready| ensures Snapshot(s', s.ready[i]) == Snapshot(s, s.ready[i]) {
      var v := EventAt(s, s.ready[i]);
      assert v.kind.Read? && s.ready[i] in s.evt ==> v.buf != b;
    }
    assert Snapshots(s', s'.ready) == Snapshots(s, s.ready);
  }

  /** A client whose place, buffer contents and records are as before is accounted for as before. */
  lemma {:induction false} SameSession(s: State, s': State, d: int)
    requires SessionOk(s, d) && After(s'.hist, d) == After(s.hist, d)
    requires ChannelAt(s', d).phase == ChannelAt(s, d).phase
    requires InBuffer(s', ChannelAt(s', d)) == InBuffer(s, ChannelAt(s, d))
    requires Received(s', d) == Received(s, d) && Discarded(s', d) == Discarded(s, d)
    ensures SessionOk(s', d)
  {
    hide After, Received, Discarded, InBuffer, ChannelAt;
  }

  // on_recv_alloc_cb

  lemma {:induction false} RecvAllocBufs(s: State, c: int)
    requires BufsOk(s) && ChansOk(s)
    ensures BufsOk(OnRecvAlloc(s, c))
  {
    var s', ch := OnRecvAlloc(s, c), ChannelAt(s, c);
    if ch.phase.Live? && ch.buf == NONE && s.pool != [] {
      assert 0 <= c < s.nChans;
      hide ChansOk, Private, Held, Carried;
      var b := s.pool[0];
      PooledIsPrivate(s, c, b);
      HeldChange(s.chan, s.nChans, c, ch.(buf := b));
      FromPool(s.pool, Held(s.chan, s.nChans), Carried(s.evt, s.ready), Carried(s.evt, s.batch));
    }
  }

  /** The first buffer of the pool moves to a channel. */
  lemma {:induction false} FromPool(pool: seq<int>, h: multiset<int>, r: multiset<int>, a: multiset<int>)
    requires pool != []
    ensures multiset(pool) + h + r + a == multiset(pool[1..]) + (h + multiset{pool[0]}) + r + a
  {
    var p, b := multiset(pool[1..]), multiset{pool[0]};
    assert pool == [pool[0]] + pool[1..];
    assert multiset(pool) + h == p + (h + b);
  }

  lemma {:induction false} RecvAllocSessions(s: State, c: int)
    requires BufsOk(s) && ChansOk(s) && SessionsOk(s)
    ensures SessionsOk(OnRecvAlloc(s, c))
  {
    hide BufsOk, ChansOk, After, SessionOk;
    var s', ch := OnRecvAlloc(s, c), ChannelAt(s, c);
    if ch.phase.Live? && ch.buf == NONE && s.pool != [] {
      PooledIsPrivate(s, c, s.pool[0]);
      forall d ensures SessionOk(s', d) {
        assert SessionOk(s, d);
        SameSession(s, s', d);
      }
    }
  }

  lemma {:induction false} RecvAllocRest(s: State, c: int)
    requires BufsOk(s) && ChansOk(s) && LogOk(s)
    ensures ChansOk(OnRecvAlloc(s, c)) && LogOk(OnRecvAlloc(s, c))
  {
    var s', ch := OnRecvAlloc(s, c), ChannelAt(s, c);
    if ch.phase.Live? && ch.buf == NONE && s.pool != [] {
      var b := s.pool[0];
      PooledIsPrivate(s, c, b);
      hide BufsOk;
      WriteKeepsLog(s, s', c, b);
      hide LogOk;
    }
  }

  lemma {:induction false} OnRecvAllocKeeps(s: State, c: int)
    requires Good(s)
    ensures Good(OnRecvAlloc(s, c))
  {
    RecvAllocBufs(s, c);
    RecvAllocSessions(s, c);
    RecvAllocRest(s, c);
    hide BufsOk, ChansOk, LogOk, SessionsOk;
  }

  // on_recv_cb with an error

  lemma {:induction false} RecvErrorRest(s: State, c: int)
    requires ChansOk(s) && SessionsOk(s)
    ensures ChansOk(OnRecvError(s, c)) && SessionsOk(OnRecvError(s, c))
  {
    var s' := OnRecvError(s, c);
    forall d ensures SessionOk(s', d) { assert SessionOk(s, d); }
  }

  lemma {:induction false} RecvErrorBufs(s: State, c: int)
    requires BufsOk(s) && ChansOk(s)
    ensures BufsOk(OnRecvError(s, c))
  {
    var ch := ChannelAt(s, c);
    if ch.phase.Live? { HeldChange(s.chan, s.nChans, c, ch.(phase := Closing)); }
    hide ChansOk, Held, Carried;
  }

  lemma {:induction false} OnRecvErrorKeeps(s: State, c: int)
    requires Good(s)
    ensures Good(OnRecvError(s, c))
  {
    hide EventsOk, BufsOk, ChansOk, SessionsOk, LogOk;
    RecvErrorBufs(s, c);
    RecvErrorRest(s, c);
    EventsFrame(s, OnRecvError(s, c));
    LogFrame(s, OnRecvError(s, c));
  }

  // on_recv_cb with data

  /** libuv's bytes land in the channel's buffer. */
  function Landed(s: State, c: int, bytes: seq<Byte>): State {
    var b := ChannelAt(s, c).buf;
    s.(data := s.data[b := Data(s, b) + bytes], received := s.received[c := Received(s, c) + bytes])
  }

  lemma {:induction false} LandedSessions(s: State, c: int, bytes: seq<Byte>)
    requires SessionsOk(s) && ChannelAt(s, c).phase.Live? && ChannelAt(s, c).buf != NONE
    requires Private(s, c, ChannelAt(s, c).buf)
    ensures SessionsOk(Landed(s, c, bytes))
  {
    hide SessionOk, After;
    var s' := Landed(s, c, bytes);
    forall d ensures SessionOk(s', d) {
      assert SessionOk(s, d);
      if d == c { LandedSession(s, c, bytes); } else { SameSession(s, s', d); }
    }
  }

  lemma {:induction false} LandedSession(s: State, c: int, bytes: seq<Byte>)
    requires SessionOk(s, c) && ChannelAt(s, c).phase.Live? && ChannelAt(s, c).buf != NONE
    ensures SessionOk(Landed(s, c, bytes), c)
  {
    hide After;
    var p, held := After(s.hist, c), Data(s, ChannelAt(s, c).buf);
    assert p.bytes + held + bytes == p.bytes + (held + bytes);
  }

  lemma {:induction false} LandedKeeps(s: State, c: int, bytes: seq<Byte>)
    requires Good(s) && ChannelAt(s, c).phase.Live? && ChannelAt(s, c).buf != NONE
    ensures Good(Landed(s, c, bytes))
  {
    hide EventsOk, BufsOk, ChansOk, SessionsOk, LogOk;
    hide Private;
    var s' := Landed(s, c, bytes);
    HeldIsPrivate(s, c);
    LandedSessions(s, c, bytes);
    WriteKeepsLog(s, s', c, ChannelAt(s, c).buf);
    ChansFrame(s, s');
    BufsFrame(s, s');
    EventsFrame(s, s');
  }

  lemma {:induction false} BufsFrame(s: State, s': State)
    requires BufsOk(s) && s'.pool == s.pool && s'.chan == s.chan && s'.nChans == s.nChans && s'.nBufs == s.nBufs
    requires s'.evt == s.evt && s'.ready == s.ready && s'.batch == s.batch
    ensures BufsOk(s')
  {
  }

  lemma {:induction false} EventsFrame(s: State, s': State)
    requires EventsOk(s) && s'.free == s.free && s'.ready == s.ready && s'.batch == s.batch && s'.lost == s.lost
      && s'.cap == s.cap
    ensures EventsOk(s')
  {
  }

  lemma {:induction false} LogFrame(s: State, s': State)
    requires LogOk(s) && s'.hist == s.hist && s'.log == s.log && s'.ready == s.ready && s'.evt == s.evt
      && s'.data == s.data
    ensures LogOk(s')
  {
    assert Snapshots(s', s'.ready) == Snapshots(s, s.ready);
  }

  /** The channel's buffer moves into a READ event. */
  function HandedOver(s: State, c: int): State
    requires s.free != []
  {
    var ch := ChannelAt(s, c);
    AfterQueue(s, Event(c, Read, ch.buf)).(chan := s.chan[c := ch.(buf := NONE)])
  }

  lemma {:induction false} HandedOverBufs(s: State, c: int)
    requires BufsOk(s) && ChansOk(s) && EventsOk(s) && s.free != []
    requires ChannelAt(s, c).phase.Live? && ChannelAt(s, c).buf != NONE
    ensures BufsOk(HandedOver(s, c))
  {
    var ch, s' := ChannelAt(s, c), HandedOver(s, c);
    HeldChange(s.chan, s.nChans, c, ch.(buf := NONE));
    QueueCarries(s, Event(c, Read, ch.buf));
    hide ChansOk, EventsOk, Held, Carried;
    var b, p, h, r, a := multiset{ch.buf}, multiset(s.pool), Held(s'.chan, s.nChans), Carried(s.evt, s.ready),
        Carried(s.evt, s.batch);
    assert p + (h + b) + r + a == p + h + (r + b) + a;
  }

  lemma {:induction false} HandedOverChans(s: State, c: int)
    requires ChansOk(s) && s.free != [] && ChannelAt(s, c).phase.Live?
    ensures ChansOk(HandedOver(s, c))
  {
  }

  lemma {:induction false} HandedOverSessions(s: State, c: int)
    requires SessionsOk(s) && s.free != []
    requires ChannelAt(s, c).phase.Live? && ChannelAt(s, c).buf != NONE
    ensures SessionsOk(HandedOver(s, c))
  {
    hide After, SessionOk;
    var ch, s' := ChannelAt(s, c), HandedOver(s, c);
    forall d ensures SessionOk(s', d) {
      assert SessionOk(s, d);
      QueueScans(s, Event(c, Read, ch.buf), d);
      if d == c { HandedOverSession(s, c); } else { SameSession(s, s', d); }
    }
  }

  lemma {:induction false} HandedOverSession(s: State, c: int)
    requires SessionOk(s, c) && s.free != []
    requires ChannelAt(s, c).phase.Live? && ChannelAt(s, c).buf != NONE
    ensures SessionOk(HandedOver(s, c), c)
  {
    hide After;
    QueueScans(s, Event(c, Read, ChannelAt(s, c).buf), c);
  }

  lemma {:induction false} HandedOverKeeps(s: State, c: int)
    requires Good(s) && s.free != [] && ChannelAt(s, c).phase.Live? && ChannelAt(s, c).buf != NONE
    ensures Good(HandedOver(s, c))
  {
    var v := Event(c, Read, ChannelAt(s, c).buf);
    HandedOverBufs(s, c);
    HandedOverChans(s, c);
    HandedOverSessions(s, c);
    QueueKeepsEvents(s, v);
    QueueKeepsLog(s, v);
    hide BufsOk, ChansOk, SessionsOk, EventsOk, LogOk;
    EventsFrame(AfterQueue(s, v), HandedOver(s, c));
    LogFrame(AfterQueue(s, v), HandedOver(s, c));
  }

  predicate MayLand(s: State, c: int, bytes: seq<Byte>) {
    var ch := ChannelAt(s, c);
    ch.phase.Live? && ch.buf != NONE && bytes != [] && |Data(s, ch.buf)| + |bytes| <= s.blockSize
  }

  lemma {:induction false} RecvShape(s: State, c: int, bytes: seq<Byte>)
    requires EventsOk(s)
    ensures OnRecv(s, c, bytes)
            == if !MayLand(s, c, bytes) then s
               else if s.free == [] then Landed(s, c, bytes)
               else HandedOver(Landed(s, c, bytes), c)
  {
    EventsFrame(s, Landed(s, c, bytes));
    hide EventsOk;
    QueueSucceeds(Landed(s, c, bytes), Event(c, Read, ChannelAt(s, c).buf));
    hide QueueEvent;
  }

  lemma {:induction false} OnRecvKeeps(s: State, c: int, bytes: seq<Byte>)
    requires Good(s)
    ensures Good(OnRecv(s, c, bytes))
  {
    RecvShape(s, c, bytes);
    hide OnRecv, EventsOk, BufsOk, ChansOk, SessionsOk, LogOk;
    if MayLand(s, c, bytes) {
      LandedKeeps(s, c, bytes);
      if s.free != [] { HandedOverKeeps(Landed(s, c, bytes), c); }
    }
  }

  // on_close_channel_cb

  function ClosedWith(s: State, c: int): State
    requires s.free != []
  {
    AfterQueue(s, Event(c, Close, NONE)).(pool := Returned(s, c).pool, discarded := Returned(s, c).discarded,
                                          chan := s.chan[c := Channel(Free, NONE)], chanFree := s.chanFree + [c])
  }

  /** The channel list has room for every channel that is off it. */
  lemma {:induction false} ListHasRoom(s: State, c: int)
    requires ChansOk(s) && c in s.chan && !s.chan[c].phase.Free?
    ensures |s.chanFree| < s.nChans
  {
    var q := s.chanFree + [c];
    forall i | 0 <= i < |q| ensures 0 <= q[i] < s.nChans { assert i < |s.chanFree| ==> s.chanFree[i] in s.chanFree; }
    assert c !in s.chanFree;
    DistinctBelow(q, s.nChans);
  }

  lemma {:induction false} CloseShape(s: State, c: int)
    requires EventsOk(s) && ChansOk(s)
    ensures OnClose(s, c)
            == if !ChannelAt(s, c).phase.Closing? then s
               else if s.free == [] then Returned(s, c).(chan := s.chan[c := Channel(Dead, NONE)])
               else ClosedWith(s, c)
  {
    if ChannelAt(s, c).phase.Closing? {
      ListHasRoom(s, c);
      hide ChansOk;
      EventsFrame(s, Returned(s, c));
      hide EventsOk;
      QueueSucceeds(Returned(s, c), Event(c, Close, NONE));
      hide QueueEvent;
    }
  }

  lemma {:induction false} CloseBufs(s: State, c: int, ch: Channel)
    requires BufsOk(s) && 0 <= c < s.nChans && c in s.chan && ch.buf == NONE
    ensures BufsOk(Returned(s, c).(chan := s.chan[c := ch]))
  {
    var s' := Returned(s, c).(chan := s.chan[c := ch]);
    HeldChange(s.chan, s.nChans, c, ch);
    Snoc(s.pool, s.chan[c].buf);
    hide Held, Carried;
    assert multiset(s'.pool) == multiset(s.pool) + One(s.chan[c].buf);
    var b, p, h, r, a := One(s.chan[c].buf), multiset(s.pool), Held(s'.chan, s.nChans), Carried(s.evt, s.ready),
        Carried(s.evt, s.batch);
    assert p + (h + b) + r + a == (p + b) + h + r + a;
  }

  lemma {:induction false} QueueKeepsBufs(s: State, v: Event)
    requires BufsOk(s) && EventsOk(s) && s.free != [] && !v.kind.Read?
    ensures BufsOk(AfterQueue(s, v))
  {
    QueueCarries(s, v);
    hide EventsOk;
    var p, h, r, a := multiset(s.pool), Held(s.chan, s.nChans), Carried(s.evt, s.ready), Carried(s.evt, s.batch);
    assert r + multiset{} == r;
  }

  lemma {:induction false} ClosedWithChans(s: State, c: int)
    requires ChansOk(s) && s.free != [] && ChannelAt(s, c).phase.Closing?
    ensures ChansOk(ClosedWith(s, c))
  {
  }

  lemma {:induction false} ClosedWithSessions(s: State, c: int)
    requires SessionsOk(s) && s.free != [] && ChannelAt(s, c).phase.Closing?
    ensures SessionsOk(ClosedWith(s, c))
  {
    hide After, SessionOk;
    var s' := ClosedWith(s, c);
    forall d ensures SessionOk(s', d) {
      assert SessionOk(s, d);
      QueueScans(s, Event(c, Close, NONE), d);
      if d == c { ClosedWithSession(s, c); } else { SameSession(s, s', d); }
    }
  }

  lemma {:induction false} ClosedWithSession(s: State, c: int)
    requires SessionOk(s, c) && s.free != [] && ChannelAt(s, c).phase.Closing?
    ensures SessionOk(ClosedWith(s, c), c)
  {
    hide After;
    QueueScans(s, Event(c, Close, NONE), c);
  }

  lemma {:induction false} DeadSessions(s: State, c: int)
    requires ChansOk(s) && SessionsOk(s) && ChannelAt(s, c).phase.Closing?
    ensures SessionsOk(Returned(s, c).(chan := s.chan[c := Channel(Dead, NONE)]))
  {
    hide After, ChansOk, SessionOk;
    var s' := Returned(s, c).(chan := s.chan[c := Channel(Dead, NONE)]);
    forall d ensures SessionOk(s', d) {
      assert SessionOk(s, d);
      if d == c { DeadSession(s, c); } else { SameSession(s, s', d); }
    }
  }

  lemma {:induction false} DeadSession(s: State, c: int)
    requires SessionOk(s, c) && ChannelAt(s, c).phase.Closing?
    ensures SessionOk(Returned(s, c).(chan := s.chan[c := Channel(Dead, NONE)]), c)
  {
    hide After;
  }

  lemma {:induction false} DeadRest(s: State, c: int)
    requires ChansOk(s) && ChannelAt(s, c).phase.Closing?
    ensures ChansOk(Returned(s, c).(chan := s.chan[c := Channel(Dead, NONE)]))
  {
    ChansFrame(s, Returned(s, c));
  }

  lemma {:induction false} ClosedWithKeeps(s: State, c: int)
    requires Good(s) && s.free != [] && ChannelAt(s, c).phase.Closing?
    ensures Good(ClosedWith(s, c))
  {
    ClosingInRange(s, c);
    hide EventsOk, BufsOk, ChansOk, SessionsOk, LogOk;
    ClosedWithChans(s, c);
    ClosedWithSessions(s, c);
    ClosedWithBufs(s, c);
    ClosedWithQueue(s, c);
  }

  lemma {:induction false} ClosedWithBufs(s: State, c: int)
    requires BufsOk(s) && EventsOk(s) && s.free != [] && c in s.chan && 0 <= c < s.nChans
    ensures BufsOk(ClosedWith(s, c))
  {
    hide BufsOk, EventsOk;
    var v := Event(c, Close, NONE);
    var s1 := Returned(s, c).(chan := s.chan[c := Channel(Free, NONE)]);
    CloseBufs(s, c, Channel(Free, NONE));
    EventsFrame(s, s1);
    QueueKeepsBufs(s1, v);
    BufsFrame(AfterQueue(s1, v), ClosedWith(s, c));
  }

  lemma {:induction false} ClosingInRange(s: State, c: int)
    requires ChansOk(s) && ChannelAt(s, c).phase.Closing?
    ensures c in s.chan && 0 <= c < s.nChans
  {
  }

  lemma {:induction false} ClosedWithQueue(s: State, c: int)
    requires EventsOk(s) && LogOk(s) && s.free != []
    ensures EventsOk(ClosedWith(s, c)) && LogOk(ClosedWith(s, c))
  {
    hide EventsOk, LogOk;
    var v := Event(c, Close, NONE);
    QueueKeepsEvents(s, v);
    QueueKeepsLog(s, v);
    EventsFrame(AfterQueue(s, v), ClosedWith(s, c));
    LogFrame(AfterQueue(s, v), ClosedWith(s, c));
  }

  lemma {:induction false} SessionsFrame(s: State, s': State)
    requires SessionsOk(s) && s'.hist == s.hist && s'.chan == s.chan && s'.data == s.data
    requires s'.received == s.received && s'.discarded == s.discarded
    ensures SessionsOk(s')
  {
    forall d ensures SessionOk(s', d) { assert SessionOk(s, d); }
  }

  lemma {:induction false} OnCloseKeeps(s: State, c: int)
    requires Good(s)
    ensures Good(OnClose(s, c))
  {
    CloseShape(s, c);
    if ChannelAt(s, c).phase.Closing? {
      if s.free != [] {
        ClosedWithKeeps(s, c);
      } else {
        DeadRest(s, c);
        DeadSessions(s, c);
        CloseBufs(s, c, Channel(Dead, NONE));
        var s' := Returned(s, c).(chan := s.chan[c := Channel(Dead, NONE)]);
        EventsFrame(s, s');
        LogFrame(s, s');
      }
    }
    hide OnClose, EventsOk, BufsOk, ChansOk, SessionsOk, LogOk;
  }

  // on_connection_cb

  /** The channel taken off the list, in the phase the callback leaves it in. */
  function Taken(s: State, phase: Phase): State
    requires s.chanFree != []
  {
    var c := s.chanFree[|s.chanFree| - 1];
    s.(chanFree := s.chanFree[..|s.chanFree| - 1], chan := s.chan[c := Channel(phase, NONE)],
       received := s.received[c := []], discarded := s.discarded[c := []])
  }

  lemma {:induction false} ConnectionShape(s: State, a: Attempt)
    requires EventsOk(s)
    ensures OnConnection(s, a)
            == if !a.accepted || s.chanFree == [] then s
               else if ConvertFrom(a.peer).Unset? || ConvertFrom(a.local).Unset? || s.free == [] then Taken(s, Closing)
               else AfterQueue(Taken(s, if a.readStarts then Live else Closing),
                               Event(s.chanFree[|s.chanFree| - 1], Open, NONE))
  {
    FormatsOnceConverted(a.peer);
    FormatsOnceConverted(a.local);
    hide ConvertFrom, Formats;
    if s.chanFree != [] {
      EventsFrame(s, Taken(s, Live));
      hide EventsOk;
      QueueSucceeds(Taken(s, Live), Event(s.chanFree[|s.chanFree| - 1], Open, NONE));
      hide QueueEvent;
    }
  }

  lemma {:induction false} TakenChans(s: State, phase: Phase)
    requires ChansOk(s) && s.chanFree != [] && (phase.Live? || phase.Closing?)
    ensures ChansOk(Taken(s, phase))
  {
    var s', n := Taken(s, phase), |s.chanFree| - 1;
    var c := s.chanFree[n];
    assert c in s.chanFree;
    assert s.chanFree == s'.chanFree + [c];
    forall d ensures d in s'.chanFree <==> d in s.chanFree && d != c {
      if d in s'.chanFree { var i :| 0 <= i < n && s'.chanFree[i] == d; }
      if d in s.chanFree && d != c { var i :| 0 <= i < |s.chanFree| && s.chanFree[i] == d; assert s'.chanFree[i] == d; }
    }
  }

  lemma {:induction false} TakenBufs(s: State, phase: Phase)
    requires BufsOk(s) && ChansOk(s) && s.chanFree != []
    ensures BufsOk(Taken(s, phase))
  {
    var c := s.chanFree[|s.chanFree| - 1];
    assert c in s.chanFree;
    HeldChange(s.chan, s.nChans, c, Channel(phase, NONE));
    hide ChansOk;
  }

  lemma {:induction false} TakenSessions(s: State)
    requires ChansOk(s) && SessionsOk(s) && s.chanFree != []
    ensures SessionsOk(Taken(s, Closing))
  {
    ListedIsFree(s);
    hide ChansOk, After, SessionOk;
    var s', c := Taken(s, Closing), s.chanFree[|s.chanFree| - 1];
    forall d ensures SessionOk(s', d) {
      assert SessionOk(s, d);
      if d == c { TakenSession(s); } else { SameSession(s, s', d); }
    }
  }

  lemma {:induction false} TakenSession(s: State)
    requires s.chanFree != []
    requires var c := s.chanFree[|s.chanFree| - 1]; ChannelAt(s, c).phase.Free? && SessionOk(s, c)
    ensures SessionOk(Taken(s, Closing), s.chanFree[|s.chanFree| - 1])
  {
    hide After;
  }

  /** A connection that fails before OPEN is queued is closing with nothing delivered. */
  lemma {:induction false} TakenKeeps(s: State)
    requires Good(s) && s.chanFree != []
    ensures Good(Taken(s, Closing))
  {
    hide EventsOk, BufsOk, ChansOk, SessionsOk, LogOk;
    TakenBufs(s, Closing);
    TakenChans(s, Closing);
    TakenSessions(s);
    EventsFrame(s, Taken(s, Closing));
    LogFrame(s, Taken(s, Closing));
  }

  lemma {:induction false} OpenedSessions(s: State, phase: Phase)
    requires ChansOk(s) && SessionsOk(s) && s.chanFree != [] && s.free != [] && (phase.Live? || phase.Closing?)
    ensures SessionsOk(AfterQueue(Taken(s, phase), Event(s.chanFree[|s.chanFree| - 1], Open, NONE)))
  {
    ListedIsFree(s);
    assert Taken(s, phase).free == s.free;
    hide ChansOk, SessionOk, AfterQueue, Taken;
    var c := s.chanFree[|s.chanFree| - 1];
    var s' := AfterQueue(Taken(s, phase), Event(c, Open, NONE));
    forall d ensures SessionOk(s', d) {
      assert SessionOk(s, d);
      if d == c { OpenedSession(s, phase); } else { OpenedOther(s, phase, d); }
    }
  }

  lemma {:induction false} OpenedOther(s: State, phase: Phase, d: int)
    requires s.chanFree != [] && s.free != [] && d != s.chanFree[|s.chanFree| - 1] && SessionOk(s, d)
    ensures SessionOk(AfterQueue(Taken(s, phase), Event(s.chanFree[|s.chanFree| - 1], Open, NONE)), d)
  {
    hide After, SessionOk;
    var t, v := Taken(s, phase), Event(s.chanFree[|s.chanFree| - 1], Open, NONE);
    QueueScans(t, v, d);
    SameSession(s, AfterQueue(t, v), d);
  }

  lemma {:induction false} OpenedSession(s: State, phase: Phase)
    requires s.chanFree != [] && s.free != [] && (phase.Live? || phase.Closing?)
    requires var c := s.chanFree[|s.chanFree| - 1]; ChannelAt(s, c).phase.Free? && SessionOk(s, c)
    ensures var c := s.chanFree[|s.chanFree| - 1]; SessionOk(AfterQueue(Taken(s, phase), Event(c, Open, NONE)), c)
  {
    hide After;
    var c := s.chanFree[|s.chanFree| - 1];
    QueueScans(Taken(s, phase), Event(c, Open, NONE), c);
  }

  lemma {:induction false} OpenedKeeps(s: State, phase: Phase)
    requires Good(s) && s.chanFree != [] && s.free != [] && (phase.Live? || phase.Closing?)
    ensures Good(AfterQueue(Taken(s, phase), Event(s.chanFree[|s.chanFree| - 1], Open, NONE)))
  {
    hide EventsOk, BufsOk, ChansOk, SessionsOk, LogOk;
    var t, v := Taken(s, phase), Event(s.chanFree[|s.chanFree| - 1], Open, NONE);
    OpenedSessions(s, phase);
    TakenChans(s, phase);
    TakenBufs(s, phase);
    EventsFrame(s, t);
    LogFrame(s, t);
    QueueKeepsEvents(t, v);
    QueueKeepsLog(t, v);
    QueueKeepsBufs(t, v);
    ChansFrame(t, AfterQueue(t, v));
  }

  lemma {:induction false} ChansFrame(s: State, s': State)
    requires ChansOk(s) && s'.chan == s.chan && s'.chanFree == s.chanFree && s'.nChans == s.nChans
    ensures ChansOk(s')
  {
  }

  lemma {:induction false} OnConnectionKeeps(s: State, a: Attempt)
    requires Good(s)
    ensures Good(OnConnection(s, a))
  {
    ConnectionShape(s, a);
    hide OnConnection, ConvertFrom, EventsOk, BufsOk, ChansOk, SessionsOk, LogOk;
    if a.accepted && s.chanFree != [] {
      TakenKeeps(s);
      if s.free != [] { OpenedKeeps(s, if a.readStarts then Live else Closing); }
    }
  }

  // acquire and release

  function Acquired(s: State): nat { if s.nBufs < |s.ready| then s.nBufs else |s.ready| }

  lemma {:induction false} AcquireEventsOk(s: State)
    requires EventsOk(s) && s.batch == []
    ensures EventsOk(Acquire(s))
  {
    var n := Acquired(s);
    assert s.ready == s.ready[..n] + s.ready[n..];
    assert multiset(s.ready) == multiset(s.ready[..n]) + multiset(s.ready[n..]);
  }

  lemma {:induction false} AcquireBufs(s: State)
    requires BufsOk(s) && s.batch == []
    ensures BufsOk(Acquire(s))
  {
    var n := Acquired(s);
    assert s.ready == s.ready[..n] + s.ready[n..];
    CarriedConcat(s.evt, s.ready[..n], s.ready[n..]);
    assert Carried(s.evt, s.batch) == multiset{};
    var p, h, r, a := multiset(s.pool), Held(s.chan, s.nChans), Carried(s.evt, s.ready[n..]),
        Carried(s.evt, s.ready[..n]);
    hide Held, Carried;
    assert p + h + (a + r) + multiset{} == p + h + r + a;
  }

  lemma {:induction false} AcquireLog(s: State)
    requires LogOk(s) && s.batch == []
    ensures LogOk(Acquire(s))
  {
    var n, s' := Acquired(s), Acquire(s);
    assert Snapshots(s', s'.ready) == Snapshots(s, s.ready[n..]);
    assert Snapshots(s, s.ready) == Snapshots(s, s.ready[..n]) + Snapshots(s, s.ready[n..]);
  }

  lemma {:induction false} AcquireKeeps(s: State)
    requires Good(s)
    ensures Good(Acquire(s))
  {
    hide EventsOk, BufsOk, ChansOk, SessionsOk, LogOk;
    if s.batch == [] {
      AcquireEventsOk(s);
      AcquireBufs(s);
      AcquireLog(s);
      ChansFrame(s, Acquire(s));
      SessionsFrame(s, Acquire(s));
    }
  }

  lemma {:induction false} ReleaseEvents(s: State)
    requires EventsOk(s) && s.batch != []
    ensures EventsOk(ReleaseOne(s)) && |s.free| < s.cap
  {
    var e := s.batch[0];
    EventOnePlace(s, e);
    assert s.batch == [e] + s.batch[1..];
    var f, r, b, l := multiset(s.free), multiset(s.ready), multiset(s.batch[1..]), multiset(s.lost);
    assert multiset(s.batch) == multiset{e} + b;
    assert f + r + (multiset{e} + b) + l == (f + multiset{e}) + r + b + l;
  }

  lemma {:induction false} CarriedSplit(evt: map<int, Event>, es: seq<int>)
    requires es != []
    ensures Carried(evt, es) == CarriedBy(evt, es[0]) + Carried(evt, es[1..])
  {
    assert es == [es[0]] + es[1..];
    CarriedConcat(evt, [es[0]], es[1..]);
    CarriedAppend(evt, [], es[0]);
    assert [] + [es[0]] == [es[0]];
  }

  lemma {:induction false} ReleasedPool(s: State)
    requires s.batch != []
    ensures multiset(PoolAfterRelease(s)) == multiset(s.pool) + CarriedBy(s.evt, s.batch[0])
  {
    Snoc(s.pool, EventAt(s, s.batch[0]).buf);
  }

  lemma {:induction false} Snoc(q: seq<int>, x: int)
    ensures multiset(q + [x]) == multiset(q) + multiset{x}
    ensures multiset(q) + multiset{} == multiset(q)
  {
  }

  lemma {:induction false} ReleaseBufs(s: State)
    requires BufsOk(s) && s.batch != []
    ensures BufsOk(ReleaseOne(s))
  {
    hide Held, Carried, CarriedBy, PoolAfterRelease;
    CarriedSplit(s.evt, s.batch);
    ReleasedPool(s);
    var x := CarriedBy(s.evt, s.batch[0]);
    var p, h, r, a := multiset(s.pool), Held(s.chan, s.nChans), Carried(s.evt, s.ready), Carried(s.evt, s.batch[1..]);
    assert p + h + r + (x + a) == (p + x) + h + r + a;
  }

  lemma {:induction false} ReleaseKeeps(s: State)
    requires Good(s)
    ensures Good(ReleaseOne(s))
  {
    hide EventsOk, BufsOk, ChansOk, SessionsOk, LogOk;
    if s.batch != [] {
      var s' := ReleaseOne(s);
      ReleaseEvents(s);
      ReleaseBufs(s);
      LogFrame(s, s');
      ChansFrame(s, s');
      SessionsFrame(s, s');
    }
  }

  // ------------------------------------------------------------ every run

  /** All events and buffers free, all channels on the list. */
  function Start(cap: nat, nBufs: nat, blockSize: nat, nChans: nat): State {
    State(cap, nBufs, blockSize, nChans, Ids(cap), [], [], [], map[], Ids(nBufs), map[], map[], Ids(nChans), [],
        [], map[], map[])
  }

  lemma {:induction false} StartIsGood(cap: nat, nBufs: nat, blockSize: nat, nChans: nat)
    ensures Good(Start(cap, nBufs, blockSize, nChans))
  {
    var s := Start(cap, nBufs, blockSize, nChans);
    HeldEmpty(nChans);
    forall c ensures c in s.chanFree <==> 0 <= c < nChans {
      if 0 <= c < nChans { assert s.chanFree[c] == c; }
    }
    assert Snapshots(s, []) == [];
    forall d ensures SessionOk(s, d) {}
  }

  lemma {:induction false} HeldEmpty(n: nat)
    ensures Held(map[], n) == multiset{}
  {
    if n > 0 { HeldEmpty(n - 1); }
  }

  lemma {:induction false} StepKeepsGood(s: State, m: Move)
    requires Good(s)
    ensures Good(Step(s, m))
  {
    hide Good;
    match m {
      case Connection(a) => OnConnectionKeeps(s, a);
      case RecvAlloc(c) => OnRecvAllocKeeps(s, c);
      case RecvError(c) => OnRecvErrorKeeps(s, c);
      case Recv(c, bytes) => OnRecvKeeps(s, c, bytes);
      case Closed(c) => OnCloseKeeps(s, c);
      case AcquireEvents => AcquireKeeps(s);
      case ReleaseEvent => ReleaseKeeps(s);
    }
  }

  lemma {:induction false} RunKeepsGood(s: State, moves: seq<Move>)
    requires Good(s)
    ensures Good(Run(s, moves))
    decreases |moves|
  {
    hide Good;
    if moves != [] {
      StepKeepsGood(s, moves[0]);
      RunKeepsGood(Step(s, moves[0]), moves[1..]);
    }
  }

  // ------------------------------------------------------------ what the runs promise

  lemma {:induction false} StepLosesNothing(s: State, m: Move)
    requires Good(s)
    ensures Step(s, m).lost == s.lost
  {
    hide EventsOk, BufsOk, ChansOk, SessionsOk, LogOk;
    match m {
      case Connection(a) => ConnectionShape(s, a); hide OnConnection;
      case Recv(c, bytes) => RecvShape(s, c, bytes); hide OnRecv;
      case Closed(c) => CloseShape(s, c); hide OnClose;
      case ReleaseEvent => if s.batch != [] { ReleaseEvents(s); }
      case _ =>
    }
  }

  lemma {:induction false} RunLosesNothing(s: State, moves: seq<Move>)
    requires Good(s)
    ensures Run(s, moves).lost == s.lost
    decreases |moves|
  {
    hide Good;
    if moves != [] {
      StepLosesNothing(s, moves[0]);
      StepKeepsGood(s, moves[0]);
      RunLosesNothing(Step(s, moves[0]), moves[1..]);
    }
  }

  /** In every run every event is in exactly one of {free, ready, acquired}, so no push onto the
      ready or free list ever fails, and every read buffer is in exactly one of {pool, a
      channel, a READ event}. */
  lemma {:induction false} EventsAndBuffersConserved(
      cap: nat, nBufs: nat, blockSize: nat, nChans: nat, moves: seq<Move>)
    ensures var s := Run(Start(cap, nBufs, blockSize, nChans), moves);
            && multiset(s.free) + multiset(s.ready) + multiset(s.batch) == multiset(Ids(cap))
            && multiset(s.pool) + Held(s.chan, nChans) + Carried(s.evt, s.ready) + Carried(s.evt, s.batch)
               == multiset(Ids(nBufs))
  {
    var s0 := Start(cap, nBufs, blockSize, nChans);
    StartIsGood(cap, nBufs, blockSize, nChans);
    RunKeepsGood(s0, moves);
    RunLosesNothing(s0, moves);
    RunKeepsSizes(s0, moves);
    hide Run, Held, Carried;
    var s := Run(s0, moves);
    assert multiset(s.lost) == multiset{};
  }

  lemma {:induction false} RunKeepsSizes(s: State, moves: seq<Move>)
    ensures SameSizes(s, Run(s, moves))
    decreases |moves|
  {
    hide Step;
    if moves != [] {
      StepKeepsSizes(s, moves[0]);
      RunKeepsSizes(Step(s, moves[0]), moves[1..]);
    }
  }

  ghost predicate SameSizes(s: State, s': State) {
    s'.cap == s.cap && s'.nBufs == s.nBufs && s'.nChans == s.nChans
  }

  lemma {:induction false} QueueKeepsSizes(s: State, v: Event)
    ensures SameSizes(s, QueueEvent(s, v).s)
  {
  }

  lemma {:induction false} StepKeepsSizes(s: State, m: Move)
    ensures SameSizes(s, Step(s, m))
  {
    hide QueueEvent;
    match m
    case Connection(a) => ConnectionKeepsSizes(s, a);
    case RecvAlloc(c) => hide OnConnection, OnRecvError, OnRecv, OnClose, Acquire, ReleaseOne;
    case RecvError(c) => hide OnConnection, OnRecvAlloc, OnRecv, OnClose, Acquire, ReleaseOne;
    case Recv(c, bytes) => RecvKeepsSizes(s, c, bytes);
    case Closed(c) => CloseKeepsSizes(s, c);
    case AcquireEvents => hide OnConnection, OnRecvAlloc, OnRecvError, OnRecv, OnClose, ReleaseOne;
    case ReleaseEvent => hide OnConnection, OnRecvAlloc, OnRecvError, OnRecv, OnClose, Acquire;
  }

  lemma {:induction false} ConnectionKeepsSizes(s: State, a: Attempt)
    ensures SameSizes(s, OnConnection(s, a))
  {
    hide QueueEvent, ConvertFrom, Formats;
    if s.chanFree != [] { QueueKeepsSizes(Taken(s, Live), Event(s.chanFree[|s.chanFree| - 1], Open, NONE)); }
  }

  lemma {:induction false} RecvKeepsSizes(s: State, c: int, bytes: seq<Byte>)
    ensures SameSizes(s, OnRecv(s, c, bytes))
  {
    hide QueueEvent;
    QueueKeepsSizes(Landed(s, c, bytes), Event(c, Read, ChannelAt(s, c).buf));
  }

  lemma {:induction false} CloseKeepsSizes(s: State, c: int)
    ensures SameSizes(s, OnClose(s, c))
  {
    hide QueueEvent, ChannelAt;
    assert SameSizes(s, Returned(s, c));
    hide Returned;
    QueueKeepsSizes(Returned(s, c), Event(c, Close, NONE));
  }

  /** In every run the bytes a client sent are accounted for. While it is connected, or closing
      after its OPEN was queued, the payloads of its READ events in order followed by what its
      channel's buffer still holds are exactly the bytes received. Once it is closed, the
      payloads queued since its OPEN followed by what the buffer held at the close are. What
      the application acquired is a prefix of what was queued. */
  lemma {:induction false} BytesArriveInOrder(
      cap: nat, nBufs: nat, blockSize: nat, nChans: nat, moves: seq<Move>, c: int)
    ensures var s := Run(Start(cap, nBufs, blockSize, nChans), moves);
            var ch, p := ChannelAt(s, c), After(s.hist, c);
            && s.log <= s.hist
            && (ch.phase.Live? ==> p.Inside? && p.bytes + InBuffer(s, ch) == Received(s, c))
            && (ch.phase.Closing? && p.Inside? ==> p.bytes + InBuffer(s, ch) == Received(s, c))
            && (ch.phase.Closing? && !p.Inside? ==> Received(s, c) == [])
            && (ch.phase.Free? ==> p.Outside? && p.last + Discarded(s, c) == Received(s, c))
            && (ch.phase.Dead? && p.Inside? ==> p.bytes + Discarded(s, c) == Received(s, c))
            && (ch.phase.Dead? && !p.Inside? ==> Received(s, c) == [])
  {
    var s0 := Start(cap, nBufs, blockSize, nChans);
    var s := Run(s0, moves);
    StartIsGood(cap, nBufs, blockSize, nChans);
    RunKeepsGood(s0, moves);
    assert SessionOk(s, c);
  }

  /** The close itself: the payloads queued since OPEN are a prefix of the bytes received, and
      the missing ones are exactly what the channel's buffer held, which nobody will see. */
  lemma {:induction false} CloseDiscardsTheBuffer(s: State, c: int)
    requires Good(s) && ChannelAt(s, c).phase.Closing? && After(s.hist, c).Inside?
    ensures var s', sent, held := OnClose(s, c), After(s.hist, c).bytes, InBuffer(s, ChannelAt(s, c));
            && sent <= Received(s, c) && Received(s, c)[|sent|..] == held
            && Discarded(s', c) == held && Received(s', c) == Received(s, c)
            && (s.free != [] ==> After(s'.hist, c) == Outside(sent))
            && (s.free == [] ==> s'.hist == s.hist)
  {
    hide OnClose, After, EventsOk, BufsOk, ChansOk, LogOk;
    CloseShape(s, c);
    assert SessionOk(s, c);
    if s.free != [] { QueueScans(s, Event(c, Close, NONE), c); }
  }

  /** A run in which a received byte never reaches the application: it arrives while the one event
      is taken, and the connection is closed before another receive. */
  lemma {:induction false} ByteDiscarded(b: Byte)
    ensures var ok := Attempt(true, Name(Inet), Name(Inet), true);
            var end := [AcquireEvents] + ([ReleaseEvent] + ([Closed(0)] + []));
            var s := Run(Start(1, 1, 1, 1),
                         [Connection(ok)] + ([RecvAlloc(0)] + ([Recv(0, [b])] + ([RecvError(0)] + end))));
            Received(s, 0) == [b] && Discarded(s, 0) == [b] && s.hist == [Entry(0, Open, []), Entry(0, Close, [])]
  {
    hide Run;
    var ok := Attempt(true, Name(Inet), Name(Inet), true);
    var s0 := Start(1, 1, 1, 1);
    var end := [AcquireEvents] + ([ReleaseEvent] + ([Closed(0)] + []));
    OneMore(s0, Connection(ok), [RecvAlloc(0)] + ([Recv(0, [b])] + ([RecvError(0)] + end)));
    var s1 := Step(s0, Connection(ok));
    OneMore(s1, RecvAlloc(0), [Recv(0, [b])] + ([RecvError(0)] + end));
    var s2 := Step(s1, RecvAlloc(0));
    ByteWaits(ok);
    OneMore(s2, Recv(0, [b]), [RecvError(0)] + end);
    var s3 := Step(s2, Recv(0, [b]));
    OneMore(s3, RecvError(0), end);
    var s4 := Step(s3, RecvError(0));
    ByteLands(s2, b);
    ByteDropped(s4, b);
  }

  /** One event, one buffer, one channel, connected, with the OPEN event still on the ready list. */
  ghost predicate Waiting(s: State, phase: Phase, bytes: seq<Byte>) {
    && s.cap == 1 && s.nBufs == 1 && s.nChans == 1 && s.blockSize == 1
    && s.free == [] && s.ready == [0] && s.batch == [] && EventAt(s, 0) == Event(0, Open, NONE)
    && ChannelAt(s, 0) == Channel(phase, 0) && s.chanFree == [] && s.data == map[0 := bytes]
    && s.hist == [Entry(0, Open, [])] && Received(s, 0) == bytes
  }

  lemma {:induction false} ByteWaits(ok: Attempt)
    requires ok == Attempt(true, Name(Inet), Name(Inet), true)
    ensures Waiting(Step(Step(Start(1, 1, 1, 1), Connection(ok)), RecvAlloc(0)), Live, [])
  {
    var s1 := OnConnection(Start(1, 1, 1, 1), ok);
    assert s1.free == [] && s1.ready == [0] && ChannelAt(s1, 0) == Channel(Live, NONE) && s1.pool == [0];
    assert s1.hist == [Entry(0, Open, [])] && EventAt(s1, 0) == Event(0, Open, NONE);
  }

  lemma {:induction false} ByteLands(s: State, b: Byte)
    requires Waiting(s, Live, [])
    ensures Waiting(Step(Step(s, Recv(0, [b])), RecvError(0)), Closing, [b])
  {
    var s1 := OnRecv(s, 0, [b]);
    assert Data(s, 0) + [b] == [b] && Received(s, 0) + [b] == [b];
    assert Waiting(s1, Live, [b]);
  }

  lemma {:induction false} ByteDropped(s: State, b: Byte)
    requires Waiting(s, Closing, [b])
    ensures var s' := Run(s, [AcquireEvents] + ([ReleaseEvent] + ([Closed(0)] + [])));
      Received(s', 0) == [b] && Discarded(s', 0) == [b] && s'.hist == [Entry(0, Open, []), Entry(0, Close, [])]
  {
    hide Run;
    OneMore(s, AcquireEvents, [ReleaseEvent] + ([Closed(0)] + []));
    var s1 := Step(s, AcquireEvents);
    assert s1.batch == [0] && s1.ready == [] && s1.free == [] && EventAt(s1, 0) == Event(0, Open, NONE);
    OneMore(s1, ReleaseEvent, [Closed(0)] + []);
    var s2 := Step(s1, ReleaseEvent);
    assert s2.free == [0] && s2.ready == [] && ChannelAt(s2, 0) == Channel(Closing, 0) && Data(s2, 0) == [b];
    OneMore(s2, Closed(0), []);
    NoMore(Step(s2, Closed(0)));
    var s3 := OnClose(s2, 0);
    assert s3.hist == [Entry(0, Open, [])] + [Entry(0, Close, [])];
  }

  lemma {:induction false} OneMore(s: State, m: Move, moves: seq<Move>)
    ensures Run(s, [m] + moves) == Run(Step(s, m), moves)
  {
    hide Step;
    assert ([m] + moves)[1..] == moves;
  }

  lemma {:induction false} NoMore(s: State)
    ensures Run(s, []) == s
  {
  }

  // ------------------------------------------------------------ the acquired batch

  /** The batch's events are as before, and so is every buffer but b, which none of them carries. */
  ghost predicate Untouched(s: State, s': State, b: int) {
    && s'.batch == s.batch && s'.log == s.log
    && (forall e :: e in s.batch ==> EventAt(s', e) == EventAt(s, e))
    && (forall x :: x != b ==> Data(s', x) == Data(s, x))
    && (forall e :: e in s.batch && EventAt(s, e).kind.Read? ==> EventAt(s, e).buf != b)
  }

  lemma {:induction false} UntouchedSnapshots(s: State, s': State, b: int)
    requires Untouched(s, s', b)
    ensures Snapshots(s', s'.batch) == Snapshots(s, s.batch)
  {
    forall i | 0 <= i < |s.batch| ensures Snapshot(s', s.batch[i]) == Snapshot(s, s.batch[i]) {
      assert s.batch[i] in s.batch;
    }
  }

  /** A buffer in the pool, or with a channel, is not one the application can see. */
  lemma {:induction false} NotDelivered(s: State, b: int, e: int)
    requires BufsOk(s) && e in s.batch && EventAt(s, e).kind.Read?
    requires b == NONE || b in s.pool || Held(s.chan, s.nChans)[b] >= 1
    ensures EventAt(s, e).buf != b
  {
    hide BufsOk;
    var i :| 0 <= i < |s.batch| && s.batch[i] == e;
    CarriedHas(s.evt, s.batch, i);
    BufOnePlace(s, EventAt(s, e).buf);
    if b in s.pool { assert multiset(s.pool)[b] >= 1; }
  }

  /** What any callback changes: the oldest free event and one buffer. */
  ghost predicate Writes(s: State, s': State, b: int) {
    && s'.batch == s.batch && s'.log == s.log
    && (s'.evt == s.evt || (s.free != [] && s'.evt == s.evt[s.free[0] := EventAt(s', s.free[0])]))
    && (s'.data == s.data || s'.data == s.data[b := Data(s', b)])
  }

  /** The oldest free event is not one the application holds. */
  lemma {:induction false} WritesLeaveBatch(s: State, s': State, b: int)
    requires EventsOk(s) && Writes(s, s', b)
    requires forall e :: e in s.batch && EventAt(s, e).kind.Read? ==> EventAt(s, e).buf != b
    ensures Untouched(s, s', b)
  {
    if s.free != [] { FreshEvent(s); }
    hide EventsOk;
  }

  /** The buffer a callback writes, if any. */
  function WrittenBy(s: State, m: Move): int {
    match m
    case RecvAlloc(c) => if s.pool == [] then NONE else s.pool[0]
    case Recv(c, _) => ChannelAt(s, c).buf
    case _ => NONE
  }

  lemma {:induction false} WrittenNotDelivered(s: State, m: Move)
    requires BufsOk(s) && ChansOk(s)
    ensures forall e :: e in s.batch && EventAt(s, e).kind.Read? ==> EventAt(s, e).buf != WrittenBy(s, m)
  {
    hide BufsOk, Held;
    var b := WrittenBy(s, m);
    if m.Recv? && m.c in s.chan && b != NONE { HeldHas(s.chan, s.nChans, m.c); }
    forall e | e in s.batch && EventAt(s, e).kind.Read? ensures EventAt(s, e).buf != b {
      NotDelivered(s, b, e);
    }
  }

  lemma {:induction false} ConnectionWrites(s: State, a: Attempt)
    requires EventsOk(s)
    ensures Writes(s, OnConnection(s, a), NONE)
  {
    ConnectionShape(s, a);
    hide EventsOk, OnConnection, ConvertFrom;
  }

  lemma {:induction false} RecvWrites(s: State, c: int, bytes: seq<Byte>)
    requires EventsOk(s)
    ensures Writes(s, OnRecv(s, c, bytes), ChannelAt(s, c).buf)
  {
    RecvShape(s, c, bytes);
    hide EventsOk, OnRecv;
  }

  lemma {:induction false} CloseWrites(s: State, c: int)
    requires EventsOk(s) && ChansOk(s)
    ensures Writes(s, OnClose(s, c), NONE)
  {
    CloseShape(s, c);
    hide EventsOk, ChansOk, OnClose;
  }

  lemma {:induction false} CallbackWrites(s: State, m: Move)
    requires EventsOk(s) && ChansOk(s) && !m.AcquireEvents? && !m.ReleaseEvent?
    ensures Writes(s, Step(s, m), WrittenBy(s, m))
  {
    hide EventsOk, ChansOk, OnConnection, OnRecv, OnClose;
    match m
    case Connection(a) => ConnectionWrites(s, a);
    case Recv(c, bytes) => RecvWrites(s, c, bytes);
    case Closed(c) => CloseWrites(s, c);
    case _ =>
  }

  /** How many of the batch's n events the moves release. */
  function Releases(moves: seq<Move>, n: nat): (k: nat)
    ensures k <= n
    decreases |moves|
  {
    if moves == [] then 0
    else if moves[0].ReleaseEvent? && n > 0 then 1 + Releases(moves[1..], n - 1)
    else Releases(moves[1..], n)
  }

  lemma {:induction false} BatchStep(s: State, m: Move)
    requires Good(s) && !m.AcquireEvents?
    ensures var k := if m.ReleaseEvent? && s.batch != [] then 1 else 0;
            && Step(s, m).log == s.log && Step(s, m).batch == s.batch[k..]
            && Snapshots(Step(s, m), Step(s, m).batch) == Snapshots(s, s.batch)[k..]
  {
    hide EventsOk, BufsOk, ChansOk, SessionsOk, LogOk;
    SnapshotsLength(s, s.batch);
    assert s.batch[0..] == s.batch && Snapshots(s, s.batch)[0..] == Snapshots(s, s.batch);
    if m.ReleaseEvent? {
      ReleaseSnapshots(s);
      hide Snapshots, ReleaseOne;
    } else {
      CallbackWrites(s, m);
      WrittenNotDelivered(s, m);
      hide Step, Snapshots;
      WritesLeaveBatch(s, Step(s, m), WrittenBy(s, m));
      UntouchedSnapshots(s, Step(s, m), WrittenBy(s, m));
    }
  }

  lemma {:induction false} ReleaseSnapshots(s: State)
    ensures var s', k := ReleaseOne(s), if s.batch != [] then 1 else 0;
            && s'.log == s.log && s'.batch == s.batch[k..]
            && Snapshots(s', s'.batch) == Snapshots(s, s.batch)[k..]
  {
    var s' := ReleaseOne(s);
    if s.batch != [] {
      hide PoolAfterRelease;
      forall i | 0 <= i < |s'.batch| ensures Snapshot(s', s'.batch[i]) == Snapshot(s, s.batch[i + 1]) {}
      hide Snapshot;
      assert Snapshots(s', s'.batch) == Snapshots(s, s.batch)[1..];
    } else {
      assert s.batch[0..] == s.batch && Snapshots(s, s.batch)[0..] == Snapshots(s, s.batch);
    }
  }

  /** Until the application acquires again, whatever callbacks run, the events of its batch that
      it has not released are still there, in order, with their payloads unchanged. */
  lemma {:induction false} BatchStays(s: State, moves: seq<Move>)
    requires Good(s) && forall i :: 0 <= i < |moves| ==> !moves[i].AcquireEvents?
    ensures var s', k := Run(s, moves), Releases(moves, |s.batch|);
            s'.log == s.log && s'.batch == s.batch[k..] && Snapshots(s', s'.batch) == Snapshots(s, s.batch)[k..]
    decreases |moves|
  {
    SnapshotsLength(s, s.batch);
    hide Good, Step, Snapshots;
    if moves != [] {
      BatchStep(s, moves[0]);
      StepKeepsGood(s, moves[0]);
      var t, j := Step(s, moves[0]), if moves[0].ReleaseEvent? && s.batch != [] then 1 else 0;
      BatchStays(t, moves[1..]);
      var k := Releases(moves[1..], |t.batch|);
      assert s.batch[j..][k..] == s.batch[j + k..];
      assert Snapshots(s, s.batch)[j..][k..] == Snapshots(s, s.batch)[j + k..];
    }
  }

  lemma {:induction false} SnapshotsLength(s: State, es: seq<int>)
    ensures |Snapshots(s, es)| == |es|
  {
  }

  /** From acquire to release: in every run that follows, what the events still held say is what
      was delivered with them. */
  lemma {:induction false} BatchStaysAsDelivered(s: State, moves: seq<Move>)
    requires Good(s) && s.batch == [] && forall i :: 0 <= i < |moves| ==> !moves[i].AcquireEvents?
    ensures var t, s' := Acquire(s), Run(Acquire(s), moves);
            var k := Releases(moves, |t.batch|);
            && s'.batch == t.batch[k..]
            && s'.log == t.log && |t.log| == |s.log| + |t.batch|
            && Snapshots(s', s'.batch) == s'.log[|s.log| + k..]
  {
    hide Good, Run;
    var t := Acquire(s);
    AcquireKeeps(s);
    assert t.log == s.log + Snapshots(t, t.batch);
    hide Snapshots, Acquire;
    BatchStays(t, moves);
    SnapshotsLength(t, t.batch);
  }

  // ------------------------------------------------------------ what each callback brings about

  /** The connection attempt gets as far as OPEN. */
  predicate Opens(s: State, a: Attempt) {
    && a.accepted && s.chanFree != [] && s.free != []
    && !ConvertFrom(a.peer).Unset? && !ConvertFrom(a.local).Unset?
  }

  /** The event a move should queue: OPEN, READ with everything its buffer holds, or CLOSE, each only
      if an event is free. */
  function Queues(s: State, m: Move): seq<Entry> {
    match m
    case Connection(a) => if Opens(s, a) then [Entry(s.chanFree[|s.chanFree| - 1], Open, [])] else []
    case Recv(c, bytes) =>
      if MayLand(s, c, bytes) && s.free != [] then [Entry(c, Read, InBuffer(s, ChannelAt(s, c)) + bytes)] else []
    case Closed(c) => if ChannelAt(s, c).phase.Closing? && s.free != [] then [Entry(c, Close, [])] else []
    case _ => []
  }

  /** The phase a move should leave client c in. */
  function PhaseAfter(s: State, m: Move, c: int): Phase {
    var now := ChannelAt(s, c).phase;
    match m
    case Connection(a) =>
      if a.accepted && s.chanFree != [] && c == s.chanFree[|s.chanFree| - 1] then
        (if Opens(s, a) && a.readStarts then Live else Closing)
      else now
    case RecvError(d) => if d == c && now.Live? then Closing else now
    case Closed(d) => if d == c && now.Closing? then (if s.free == [] then Dead else Free) else now
    case _ => now
  }

  /** What a move should leave in client c's buffer, given what was there: a receive adds its bytes if
      no event is free, and otherwise takes all of them along in its READ event. */
  function HeldBack(s: State, w: seq<Byte>, m: Move, c: int): seq<Byte> {
    if m.Recv? && m.c == c && MayLand(s, c, m.bytes) then (if s.free == [] then w + m.bytes else [])
    else if m.Closed? && m.c == c && ChannelAt(s, c).phase.Closing? then []
    else w
  }

  /** The outcome as it should be, seen from client c. */
  ghost predicate AsItShould(s: State, m: Move, s': State, c: int) {
    && s'.hist == s.hist + Queues(s, m)
    && ChannelAt(s', c).phase == PhaseAfter(s, m, c)
    && InBuffer(s', ChannelAt(s', c)) == HeldBack(s, InBuffer(s, ChannelAt(s, c)), m, c)
  }

  lemma {:induction false} ConnectionOutcome(s: State, a: Attempt, c: int)
    requires EventsOk(s) && ChansOk(s)
    ensures AsItShould(s, Connection(a), OnConnection(s, a), c)
  {
    hide EventsOk, ChansOk, OnConnection, ConvertFrom;
    ConnectionShape(s, a);
    if a.accepted && s.chanFree != [] {
      ListedHasNoBuffer(s);
      var phase := if Opens(s, a) && a.readStarts then Live else Closing;
      TakenLooks(s, phase, c);
      hide Taken, InBuffer, ChannelAt, Data;
      if Opens(s, a) { QueuedLooks(Taken(s, phase), Event(s.chanFree[|s.chanFree| - 1], Open, NONE), c); }
      hide AfterQueue;
    }
  }

  lemma {:induction false} TakenLooks(s: State, phase: Phase, c: int)
    requires s.chanFree != [] && ChannelAt(s, s.chanFree[|s.chanFree| - 1]).buf == NONE
    ensures var t := Taken(s, phase);
            && t.hist == s.hist && t.free == s.free
            && ChannelAt(t, c).phase == (if c == s.chanFree[|s.chanFree| - 1] then phase else ChannelAt(s, c).phase)
            && InBuffer(t, ChannelAt(t, c)) == InBuffer(s, ChannelAt(s, c))
  {
  }

  /** Queueing an event other than READ is seen in the record only. */
  lemma {:induction false} QueuedLooks(s: State, v: Event, c: int)
    requires s.free != [] && !v.kind.Read?
    ensures var t := AfterQueue(s, v);
            && t.hist == s.hist + [Entry(v.client, v.kind, [])] && ChannelAt(t, c) == ChannelAt(s, c)
            && InBuffer(t, ChannelAt(t, c)) == InBuffer(s, ChannelAt(s, c))
  {
  }

  lemma {:induction false} AllocOutcome(s: State, d: int, c: int)
    requires BufsOk(s) && ChansOk(s)
    ensures AsItShould(s, RecvAlloc(d), OnRecvAlloc(s, d), c)
  {
    hide BufsOk, ChansOk;
    if s.pool != [] { PooledIsPrivate(s, c, s.pool[0]); }
  }

  lemma {:induction false} RecvOutcome(s: State, d: int, bytes: seq<Byte>, c: int)
    requires EventsOk(s) && BufsOk(s) && ChansOk(s)
    ensures AsItShould(s, Recv(d, bytes), OnRecv(s, d, bytes), c)
  {
    hide EventsOk, BufsOk, ChansOk, OnRecv;
    RecvShape(s, d, bytes);
    if MayLand(s, d, bytes) { HeldIsPrivate(s, d); }
  }

  lemma {:induction false} CloseOutcome(s: State, d: int, c: int)
    requires EventsOk(s) && ChansOk(s)
    ensures AsItShould(s, Closed(d), OnClose(s, d), c)
  {
    hide EventsOk, ChansOk, OnClose;
    CloseShape(s, d);
  }

  /** Exactly these events are queued, the client is in exactly this phase, and exactly these bytes
      are held back. */
  lemma {:induction false} StepOutcome(s: State, m: Move, c: int)
    requires Good(s)
    ensures Step(s, m).hist == s.hist + Queues(s, m)
    ensures ChannelAt(Step(s, m), c).phase == PhaseAfter(s, m, c)
    ensures InBuffer(Step(s, m), ChannelAt(Step(s, m), c)) == HeldBack(s, InBuffer(s, ChannelAt(s, c)), m, c)
  {
    hide EventsOk, BufsOk, ChansOk, SessionsOk, LogOk;
    if m.AcquireEvents? || m.ReleaseEvent? || m.RecvError? {
      assert AsItShould(s, m, Step(s, m), c);
    } else {
      hide OnConnection, OnRecvAlloc, OnRecv, OnClose, AsItShould;
      match m
      case Connection(a) => ConnectionOutcome(s, a, c);
      case RecvAlloc(d) => AllocOutcome(s, d, c);
      case Recv(d, bytes) => RecvOutcome(s, d, bytes, c);
      case Closed(d) => CloseOutcome(s, d, c);
      case _ =>
    }
    assert AsItShould(s, m, Step(s, m), c);
    hide Step, Queues, PhaseAfter, HeldBack, InBuffer;
  }

  lemma {:induction false} ListedHasNoBuffer(s: State)
    requires ChansOk(s) && s.chanFree != []
    ensures ChannelAt(s, s.chanFree[|s.chanFree| - 1]).buf == NONE
  {
    assert s.chanFree[|s.chanFree| - 1] in s.chanFree;
  }

  /** All events a run should queue, and what it should leave in client c's buffer. */
  function AllQueued(s: State, moves: seq<Move>): seq<Entry>
    decreases |moves|
  {
    if moves == [] then [] else Queues(s, moves[0]) + AllQueued(Step(s, moves[0]), moves[1..])
  }

  function Backlog(s: State, w: seq<Byte>, moves: seq<Move>, c: int): seq<Byte>
    decreases |moves|
  {
    if moves == [] then w else Backlog(Step(s, moves[0]), HeldBack(s, w, moves[0], c), moves[1..], c)
  }

  lemma {:induction false} RunOutcome(s: State, moves: seq<Move>, c: int)
    requires Good(s)
    ensures var s' := Run(s, moves);
            && s'.hist == s.hist + AllQueued(s, moves)
            && InBuffer(s', ChannelAt(s', c)) == Backlog(s, InBuffer(s, ChannelAt(s, c)), moves, c)
    decreases |moves|
  {
    hide Good, Step, Queues, HeldBack, InBuffer;
    if moves != [] {
      StepOutcome(s, moves[0], c);
      StepKeepsGood(s, moves[0]);
      RunOutcome(Step(s, moves[0]), moves[1..], c);
    }
  }

  /** Some receive of client c found no free event. */
  ghost predicate ReceiveStarved(s: State, moves: seq<Move>, c: int)
    decreases |moves|
  {
    moves != [] &&
      ((moves[0].Recv? && moves[0].c == c && MayLand(s, c, moves[0].bytes) && s.free == [])
       || ReceiveStarved(Step(s, moves[0]), moves[1..], c))
  }

  lemma {:induction false} NoBacklog(s: State, moves: seq<Move>, c: int)
    requires !ReceiveStarved(s, moves, c)
    ensures Backlog(s, [], moves, c) == []
    decreases |moves|
  {
    hide Step;
    if moves != [] { NoBacklog(Step(s, moves[0]), moves[1..], c); }
  }

  /** In every run the events queued are exactly those the callbacks should queue; a connected
      client's payloads lack exactly the bytes that arrived since its last receive that found a free
      event; and if none was starved they are all the bytes it sent. */
  lemma {:induction false} EveryReceiveIsQueued(
      cap: nat, nBufs: nat, blockSize: nat, nChans: nat, moves: seq<Move>, c: int)
    ensures var s0 := Start(cap, nBufs, blockSize, nChans);
            var s := Run(s0, moves);
            var p, w := After(s.hist, c), Backlog(s0, [], moves, c);
            && s.hist == AllQueued(s0, moves)
            && (ChannelAt(s, c).phase.Live? ==> p.Inside? && p.bytes + w == Received(s, c))
            && (ChannelAt(s, c).phase.Live? && !ReceiveStarved(s0, moves, c) ==> p.bytes == Received(s, c))
  {
    var s0 := Start(cap, nBufs, blockSize, nChans);
    var s := Run(s0, moves);
    StartIsGood(cap, nBufs, blockSize, nChans);
    assert InBuffer(s0, ChannelAt(s0, c)) == [] && s0.hist == [];
    RunKeepsGood(s0, moves);
    assert SessionOk(s, c);
    hide Good, Run, After, AllQueued, Backlog, ReceiveStarved, SessionsOk;
    RunOutcome(s0, moves, c);
    if !ReceiveStarved(s0, moves, c) { NoBacklog(s0, moves, c); }
  }

  /** Acquire delivers, in the order they were queued, the next min(buffer_count, ready) events. */
  lemma {:induction false} AcquireDelivers(s: State)
    requires Good(s) && s.batch == []
    ensures var t, n := Acquire(s), |s.hist| - |s.log|;
            && n == |s.ready| && t.hist == s.hist
            && |t.log| == |s.log| + (if s.nBufs < n then s.nBufs else n) && t.log == s.hist[..|t.log|]
            && |t.batch| == |t.log| - |s.log| && t.batch + t.ready == s.ready
  {
    hide EventsOk, BufsOk, ChansOk, SessionsOk;
    AcquireKeeps(s);
    SnapshotsLength(s, s.ready);
    var t := Acquire(s);
    SnapshotsLength(t, t.ready);
    SnapshotsLength(s, s.ready[..|t.batch|]);
    assert t.hist == t.log + Snapshots(t, t.ready);
  }

  // ------------------------------------------------------------ channels that are never listed again

  ghost predicate DeadAt(s: State, c: int) { ChannelAt(s, c).phase.Dead? }

  /** The closes that found no free event: on_close_channel_cb leaves before it puts the channel
      back on the list. */
  function Starved(s: State, m: Move): bool {
    m.Closed? && ChannelAt(s, m.c).phase.Closing? && s.free == []
  }

  function StarvedCloses(s: State, moves: seq<Move>): set<int>
    decreases |moves|
  {
    if moves == [] then {}
    else (if Starved(s, moves[0]) then {moves[0].c} else {}) + StarvedCloses(Step(s, moves[0]), moves[1..])
  }

  lemma {:induction false} DeadByStep(s: State, m: Move, c: int)
    requires Good(s)
    ensures DeadAt(Step(s, m), c) <==> DeadAt(s, c) || (Starved(s, m) && m.c == c)
  {
    hide EventsOk, BufsOk, ChansOk, SessionsOk, LogOk;
    match m
    case Connection(a) => DeadByConnection(s, a, c); hide OnConnection;
    case Recv(d, bytes) => DeadByRecv(s, d, bytes, c); hide OnRecv;
    case Closed(d) => CloseShape(s, d); hide OnClose;
    case _ =>
  }

  lemma {:induction false} DeadByConnection(s: State, a: Attempt, c: int)
    requires EventsOk(s) && ChansOk(s)
    ensures DeadAt(OnConnection(s, a), c) <==> DeadAt(s, c)
  {
    hide ChansOk, EventsOk, OnConnection, ConvertFrom;
    if s.chanFree != [] { ListedIsFree(s); }
    ConnectionShape(s, a);
  }

  lemma {:induction false} DeadByRecv(s: State, d: int, bytes: seq<Byte>, c: int)
    requires EventsOk(s)
    ensures DeadAt(OnRecv(s, d, bytes), c) <==> DeadAt(s, c)
  {
    hide EventsOk, OnRecv;
    RecvShape(s, d, bytes);
  }

  lemma {:induction false} ListedIsFree(s: State)
    requires ChansOk(s) && s.chanFree != []
    ensures ChannelAt(s, s.chanFree[|s.chanFree| - 1]).phase.Free?
  {
    assert s.chanFree[|s.chanFree| - 1] in s.chanFree;
  }

  /** Exactly which channels are lost: those already lost, and those closed while no event was
      free. */
  lemma {:induction false} DeadIffStarved(s: State, moves: seq<Move>, c: int)
    requires Good(s)
    ensures DeadAt(Run(s, moves), c) <==> DeadAt(s, c) || c in StarvedCloses(s, moves)
    decreases |moves|
  {
    hide Good, DeadAt, Starved;
    if moves != [] {
      DeadByStep(s, moves[0], c);
      StepKeepsGood(s, moves[0]);
      DeadIffStarved(Step(s, moves[0]), moves[1..], c);
    }
  }

  /** In every run each channel is in exactly one of {on the list, connected, closing} if and
      only if no close found the event list empty; otherwise exactly the channels so closed are
      on no list for ever. */
  lemma {:induction false} ChannelsConservedIffNoneStarved(
      cap: nat, nBufs: nat, blockSize: nat, nChans: nat, moves: seq<Move>)
    ensures var s0 := Start(cap, nBufs, blockSize, nChans); var s := Run(s0, moves);
            && (forall c :: 0 <= c < nChans ==>
                  (c in s.chanFree <==> ChannelAt(s, c).phase.Free?)
                  && (DeadAt(s, c) <==> c in StarvedCloses(s0, moves)))
            && Distinct(s.chanFree)
            && ((forall c :: 0 <= c < nChans ==>
                   c in s.chanFree || ChannelAt(s, c).phase.Live? || ChannelAt(s, c).phase.Closing?)
                <==> StarvedCloses(s0, moves) == {})
  {
    var s0 := Start(cap, nBufs, blockSize, nChans);
    var s := Run(s0, moves);
    StartIsGood(cap, nBufs, blockSize, nChans);
    RunKeepsGood(s0, moves);
    RunKeepsSizes(s0, moves);
    hide Run, EventsOk, BufsOk, SessionsOk, LogOk;
    forall c ensures DeadAt(s, c) <==> c in StarvedCloses(s0, moves) { DeadIffStarved(s0, moves, c); }
    forall c | c in StarvedCloses(s0, moves) ensures 0 <= c < nChans { assert DeadAt(s, c); }
  }

  /** A run that loses the only channel: the one event still waits to be acquired when the
      connection is closed. */
  lemma {:induction false} ChannelLost()
    ensures var ok := Attempt(true, Name(Inet), Name(Inet), true);
            var s := Run(Start(1, 1, 1, 1), [Connection(ok), RecvError(0), Closed(0)]);
            DeadAt(s, 0) && s.chanFree == []
  {
    var ok := Attempt(true, Name(Inet), Name(Inet), true);
    var s0 := Start(1, 1, 1, 1);
    var moves := [Connection(ok), RecvError(0), Closed(0)];
    var s1 := Step(s0, moves[0]);
    assert s1.free == [] && s1.chanFree == [] && ChannelAt(s1, 0) == Channel(Live, NONE);
    var s2 := Step(s1, RecvError(0));
    assert moves[1..] == [RecvError(0), Closed(0)] && moves[1..][1..] == [Closed(0)] && moves[1..][1..][1..] == [];
    var s3 := Step(s2, Closed(0));
    assert Run(s2, [Closed(0)]) == Run(s3, []) == s3;
    assert Run(s1, moves[1..]) == Run(s2, [Closed(0)]);
    assert Run(s0, moves) == Run(s1, moves[1..]);
  }

  // ------------------------------------------------------------ the grammar of a client's events

  /** The kinds of client c's events, in order. */
  function KindsOf(h: seq<Entry>, c: int): seq<Kind> {
    if h == [] then []
    else
      var e := h[|h| - 1];
      KindsOf(h[..|h| - 1], c) + (if e.client == c then [e.kind] else [])
  }

  ghost predicate AllRead(ks: seq<Kind>) { forall i :: 0 <= i < |ks| ==> ks[i].Read? }

  /** The session that starts ks, OPEN READ* CLOSE, ends at m. */
  ghost predicate SessionEnds(ks: seq<Kind>, m: int) {
    1 <= m < |ks| && ks[0].Open? && AllRead(ks[1..m]) && ks[m].Close?
  }

  /** (CLOSE | OPEN READ* CLOSE)* */
  ghost predicate Complete(ks: seq<Kind>)
    decreases |ks|
  {
    || ks == []
    || (ks[0].Close? && Complete(ks[1..]))
    || (exists m :: SessionEnds(ks, m) && Complete(ks[m + 1..]))
  }

  /** Complete sessions followed by an unfinished OPEN READ*. */
  ghost predicate Unfinished(ks: seq<Kind>) {
    exists n :: 0 <= n < |ks| && Complete(ks[..n]) && ks[n].Open? && AllRead(ks[n + 1..])
  }

  ghost predicate Grammar(ks: seq<Kind>) { Complete(ks) || Unfinished(ks) }

  lemma {:induction false} CompleteThen(a: seq<Kind>, b: seq<Kind>)
    requires Complete(a) && Complete(b)
    ensures Complete(a + b)
    decreases |a|
  {
    hide Complete, SessionEnds;
    var m := FirstPart(a);
    if a == [] {
      assert a + b == b;
    } else if a[0].Close? {
      CompleteThen(a[1..], b);
      CloseThen(a + b, a[1..] + b);
    } else {
      SessionIn(a, b, m);
      CompleteThen(a[m + 1..], b);
      SessionThen(a + b, m);
    }
  }

  /** A complete sequence starts with a lone CLOSE or with a session that ends at m. */
  lemma {:induction false} FirstPart(a: seq<Kind>) returns (m: int)
    requires Complete(a)
    ensures a != [] && a[0].Close? ==> Complete(a[1..])
    ensures a != [] && !a[0].Close? ==> SessionEnds(a, m) && 0 < m < |a| && Complete(a[m + 1..])
  {
    hide AllRead;
    m := 0;
    if a != [] && !a[0].Close? { m :| SessionEnds(a, m) && Complete(a[m + 1..]); }
  }

  lemma {:induction false} SessionIn(a: seq<Kind>, b: seq<Kind>, m: int)
    requires SessionEnds(a, m)
    ensures 0 < m < |a| && SessionEnds(a + b, m) && (a + b)[m + 1..] == a[m + 1..] + b
  {
    hide AllRead;
    assert (a + b)[1..m] == a[1..m];
  }

  lemma {:induction false} CloseThen(ks: seq<Kind>, rest: seq<Kind>)
    requires ks != [] && ks[0].Close? && ks[1..] == rest && Complete(rest)
    ensures Complete(ks)
  {
  }

  lemma {:induction false} SessionThen(ks: seq<Kind>, m: nat)
    requires SessionEnds(ks, m) && Complete(ks[m + 1..])
    ensures Complete(ks)
  {
  }

  lemma {:induction false} OneSession(rs: seq<Kind>)
    requires AllRead(rs)
    ensures Complete([Open] + rs + [Close])
  {
    var ks := [Open] + rs + [Close];
    assert ks[1..|rs| + 1] == rs;
    assert ks[|rs| + 2..] == [];
    SessionThen(ks, |rs| + 1);
  }

  lemma {:induction false} ThenClose(ks: seq<Kind>)
    ensures Complete(ks) || Unfinished(ks) ==> Complete(ks + [Close])
  {
    hide Complete, AllRead;
    if Complete(ks) {
      NothingIsComplete();
      CloseThen([Close], []);
      CompleteThen(ks, [Close]);
    } else if Unfinished(ks) {
      var n :| 0 <= n < |ks| && Complete(ks[..n]) && ks[n].Open? && AllRead(ks[n + 1..]);
      OneSession(ks[n + 1..]);
      CompleteThen(ks[..n], [Open] + ks[n + 1..] + [Close]);
      assert ks + [Close] == ks[..n] + ([Open] + ks[n + 1..] + [Close]);
    }
  }

  lemma {:induction false} ThenOpen(ks: seq<Kind>)
    requires Complete(ks)
    ensures Unfinished(ks + [Open])
  {
    hide Complete;
    var ks' := ks + [Open];
    assert ks'[..|ks|] == ks && ks'[|ks| + 1..] == [];
  }

  lemma {:induction false} ThenRead(ks: seq<Kind>)
    requires Unfinished(ks)
    ensures Unfinished(ks + [Read])
  {
    hide Complete;
    var n :| 0 <= n < |ks| && Complete(ks[..n]) && ks[n].Open? && AllRead(ks[n + 1..]);
    var ks' := ks + [Read];
    assert ks'[..n] == ks[..n];
    assert ks'[n + 1..] == ks[n + 1..] + [Read];
  }

  lemma {:induction false} NothingIsComplete()
    ensures Complete([])
  {
  }

  /** A client whose scan never went bad has events of the promised shape. */
  lemma {:induction false} ScanMeansGrammar(h: seq<Entry>, c: int)
    requires !After(h, c).Bad?
    ensures After(h, c).Outside? ==> Complete(KindsOf(h, c))
    ensures After(h, c).Inside? ==> Unfinished(KindsOf(h, c))
  {
    hide Complete, Unfinished;
    if h == [] {
      NothingIsComplete();
    } else {
      var e, g := h[|h| - 1], h[..|h| - 1];
      ScanMeansGrammar(g, c);
      var ks, p := KindsOf(g, c), After(g, c);
      if e.client == c {
        ThenClose(ks);
        if p.Outside? { ThenOpen(ks); }
        if p.Inside? { ThenRead(ks); }
      } else {
        assert KindsOf(h, c) == ks;
      }
    }
  }

  /** Once out of step, always out of step. */
  lemma {:induction false} BadStays(h: seq<Entry>, n: nat, c: int)
    requires n <= |h| && !After(h, c).Bad?
    ensures !After(h[..n], c).Bad?
    decreases |h|
  {
    if n == |h| {
      assert h[..n] == h;
    } else {
      assert h[..|h| - 1][..n] == h[..n];
      BadStays(h[..|h| - 1], n, c);
    }
  }

  /** In every run each client id's events, those delivered to the application as well as those
      queued so far, form (CLOSE | OPEN READ* CLOSE)* with an optional unfinished OPEN READ*. */
  lemma {:induction false} EventsFollowGrammar(
      cap: nat, nBufs: nat, blockSize: nat, nChans: nat, moves: seq<Move>, c: int)
    ensures var s := Run(Start(cap, nBufs, blockSize, nChans), moves);
            Grammar(KindsOf(s.log, c)) && Grammar(KindsOf(s.hist, c))
  {
    var s0 := Start(cap, nBufs, blockSize, nChans);
    var s := Run(s0, moves);
    StartIsGood(cap, nBufs, blockSize, nChans);
    RunKeepsGood(s0, moves);
    assert SessionOk(s, c);
    assert s.hist[..|s.log|] == s.log;
    hide Good, Run, Complete, Unfinished;
    BadStays(s.hist, |s.log|, c);
    ScanMeansGrammar(s.hist, c);
    ScanMeansGrammar(s.log, c);
  }
}
