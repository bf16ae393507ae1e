/** Length-prefixed framing on the client connection: the encoder of tcp_write_begin and
    the incremental decoder of on_tcp_recv_cb (src/tcp_connection.c) over a cursor buffer
    (src/buffer.c). */
module Framing {

  type Byte = b: nat | b < 256

  const ID_MOD: nat := 0x1_0000_0000_0000_0000
  const LEN_MOD: nat := 0x1_0000_0000

  // ------------------------------------------------------------ big-endian numbers

  function Pow256(k: nat): (p: nat)
    ensures p >= 1
  {
    if k == 0 then 1 else 256 * Pow256(k - 1)
  }

  function ToBe(n: nat, k: nat): (s: seq<Byte>)
    ensures |s| == k
  {
    if k == 0 then [] else ToBe(n / 256, k - 1) + [n % 256]
  }

  function FromBe(s: seq<Byte>): nat {
    if s == [] then 0 else 256 * FromBe(s[..|s| - 1]) + s[|s| - 1]
  }

  lemma {:induction false} BeRoundTrip(n: nat, k: nat)
    requires n < Pow256(k)
    ensures FromBe(ToBe(n, k)) == n
  {
    if k > 0 {
      BeRoundTrip(n / 256, k - 1);
      assert ToBe(n, k)[..k - 1] == ToBe(n / 256, k - 1);
    }
  }

  lemma {:induction false} BeInjective(s: seq<Byte>)
    ensures FromBe(s) < Pow256(|s|) && ToBe(FromBe(s), |s|) == s
  {
    if s != [] {
      var m := |s| - 1;
      BeInjective(s[..m]);
      assert s == s[..m] + [s[m]];
    }
  }

  lemma {:induction false} Widths()
    ensures Pow256(4) == LEN_MOD && Pow256(8) == ID_MOD
  {
  }

  // ------------------------------------------------------------ messages

  /** What the decoder finds in a frame: id, stamp, and the bytes behind them, which it skips. */
  datatype Msg = Msg(id: nat, stamp: nat, body: seq<Byte>)

  /** A message handed to tcp_write_begin: it sends nothing for an empty payload. */
  datatype Outgoing = Outgoing(id: nat, stamp: nat, data: seq<Byte>)

  ghost predicate Sendable(m: Outgoing) {
    m.id < ID_MOD && m.stamp < ID_MOD && 1 <= |m.data| < 0x8000_0000
  }

  function Encode(m: Outgoing): seq<Byte> {
    ToBe(|m.data| + 17, 4) + ToBe(m.id, 8) + ToBe(m.stamp, 8) + m.data + [0]
  }

  function Stream(ms: seq<Outgoing>): seq<Byte> {
    if ms == [] then [] else Encode(ms[0]) + Stream(ms[1..])
  }

  /** A message as it should arrive: the payload is followed by a null byte. */
  function Report(m: Outgoing): Msg { Msg(m.id, m.stamp, m.data + [0]) }

  function Reports(ms: seq<Outgoing>): seq<Msg> {
    seq(|ms|, i requires 0 <= i < |ms| => Report(ms[i]))
  }

  // ------------------------------------------------------------ the decoder

  /** read_state, next_payload_len, the unread bytes, last_recv_msg_id and the messages
      decoded so far. */
  datatype Decoder = Decoder(inPayload: bool, need: nat, rest: seq<Byte>, last: nat, got: seq<Msg>)

  datatype Drained = Drained(d: Decoder, ok: bool)

  function Expect(last: nat, id: nat): nat {
    if id == (last + 1) % ID_MOD then id else last
  }

  /** The state after the payload's id and stamp were read and the remainder skipped. */
  function AfterMessage(d: Decoder, skip: nat): Decoder
    requires |d.rest| >= 16 + skip
  {
    var id := FromBe(d.rest[..8]);
    var msg := Msg(id, FromBe(d.rest[8..16]), d.rest[16..16 + skip]);
    Decoder(false, d.need, d.rest[16 + skip..], Expect(d.last, id), d.got + [msg])
  }

  function AfterHeader(d: Decoder): Decoder
    requires |d.rest| >= 4
  {
    d.(inPayload := true, need := FromBe(d.rest[..4]), rest := d.rest[4..])
  }

  /** Everything the loop does with the unread bytes; ok is false when a read or the skip
      fails and the callback is left early. */
  function Drain(d: Decoder): Drained
    decreases |d.rest|
  {
    if !d.inPayload then
      if |d.rest| < 4 then Drained(d, true) else Drain(AfterHeader(d))
    else if |d.rest| < d.need then Drained(d, true)
    else if |d.rest| < 8 then Drained(d, false)
    else if |d.rest| < 16 then Drained(d.(rest := d.rest[8..]), false)
    else
      var skip := (d.need - 16) % LEN_MOD;
      if skip == 0 || skip > |d.rest| - 16 then Drained(d.(rest := d.rest[16..]), false)
      else Drain(AfterMessage(d, skip))
  }

  /** The payload branch, case by case. */
  lemma {:induction false} DrainPayload(d: Decoder)
    requires d.inPayload && |d.rest| >= d.need
    ensures |d.rest| < 8 ==> Drain(d) == Drained(d, false)
    ensures 8 <= |d.rest| < 16 ==> Drain(d) == Drained(d.(rest := d.rest[8..]), false)
    ensures |d.rest| >= 16 ==>
      var skip := (d.need - 16) % LEN_MOD;
      Drain(d) == if skip == 0 || skip > |d.rest| - 16 then Drained(d.(rest := d.rest[16..]), false)
                  else Drain(AfterMessage(d, skip))
  {
    hide FromBe;
  }

  function More(d: Decoder, more: seq<Byte>): Decoder { d.(rest := d.rest + more) }

  /** Draining early changes nothing: the bytes that arrive later find the decoder where
      draining everything at once would have put it. */
  lemma {:induction false} DrainMore(d: Decoder, more: seq<Byte>)
    requires Drain(d).ok
    ensures Drain(More(d, more)) == Drain(More(Drain(d).d, more))
    decreases |d.rest|
  {
    hide FromBe, Expect, AfterHeader, AfterMessage;
    if !d.inPayload {
      if |d.rest| >= 4 {
        HeaderMore(d, more);
        DrainMore(AfterHeader(d), more);
      }
    } else if |d.rest| >= d.need {
      var skip := (d.need - 16) % LEN_MOD;
      MessageMore(d, skip, more);
      DrainMore(AfterMessage(d, skip), more);
    }
  }

  lemma {:induction false} HeaderMore(d: Decoder, more: seq<Byte>)
    requires |d.rest| >= 4
    ensures AfterHeader(More(d, more)) == More(AfterHeader(d), more) && |AfterHeader(d).rest| < |d.rest|
  {
    assert (d.rest + more)[..4] == d.rest[..4];
    assert (d.rest + more)[4..] == d.rest[4..] + more;
  }

  lemma {:induction false} MessageMore(d: Decoder, skip: nat, more: seq<Byte>)
    requires |d.rest| >= 16 + skip
    ensures AfterMessage(More(d, more), skip) == More(AfterMessage(d, skip), more)
      && |AfterMessage(d, skip).rest| < |d.rest|
  {
    assert (d.rest + more)[..8] == d.rest[..8];
    assert (d.rest + more)[8..16] == d.rest[8..16];
    assert (d.rest + more)[16..16 + skip] == d.rest[16..16 + skip];
    assert (d.rest + more)[16 + skip..] == d.rest[16 + skip..] + more;
  }

  // ------------------------------------------------------------ decoding what was encoded

  lemma {:induction false} EncodeParts(m: Outgoing)
    requires Sendable(m)
    ensures var s := Encode(m);
            && |s| == |m.data| + 21
            && FromBe(s[..4]) == |m.data| + 17
            && FromBe(s[4..12]) == m.id && FromBe(s[12..20]) == m.stamp && s[20..] == m.data + [0]
  {
    hide ToBe, FromBe, Pow256;
    Widths();
    BeRoundTrip(|m.data| + 17, 4);
    BeRoundTrip(m.id, 8);
    BeRoundTrip(m.stamp, 8);
    FrameParts(ToBe(|m.data| + 17, 4), ToBe(m.id, 8), ToBe(m.stamp, 8), m.data, [0]);
  }

  lemma {:induction false} FrameParts(a: seq<Byte>, b: seq<Byte>, c: seq<Byte>, d: seq<Byte>, e: seq<Byte>)
    requires |a| == 4 && |b| == 8 && |c| == 8
    ensures var s := a + b + c + d + e; s[..4] == a && s[4..12] == b && s[12..20] == c && s[20..] == d + e
  {
    var s := a + b + c + d + e;
    assert s == a + (b + (c + (d + e)));
  }

  /** One whole frame in front of the unread bytes is consumed and reported. */
  lemma {:induction false} DrainFrame(d: Decoder, m: Outgoing, tail: seq<Byte>)
    requires Sendable(m) && !d.inPayload && d.rest == Encode(m) + tail
    ensures Drain(d)
         == Drain(Decoder(false, |m.data| + 17, tail, Expect(d.last, m.id), d.got + [Report(m)]))
  {
    hide FromBe, ToBe, Drain, Encode;
    EncodeParts(m);
    FrameSlices(Encode(m), tail);
    DrainHeader(d);
    var h := AfterHeader(d);
    assert h.rest == Encode(m)[4..] + tail;
    DrainPayload(h);
    assert (h.need - 16) % LEN_MOD == |m.data| + 1;
    assert h.rest[16..16 + |m.data| + 1] == m.data + [0];
    assert h.rest[16 + |m.data| + 1..] == tail;
  }

  lemma {:induction false} FrameSlices(s: seq<Byte>, tail: seq<Byte>)
    requires |s| >= 20
    ensures var r := s + tail; var h := s[4..] + tail;
      r[..4] == s[..4] && r[4..] == h && h[..8] == s[4..12] && h[8..16] == s[12..20]
      && h[16..|s| - 4] == s[20..] && h[|s| - 4..] == tail
  {
  }

  lemma {:induction false} DrainHeader(d: Decoder)
    requires !d.inPayload && |d.rest| >= 4
    ensures Drain(d) == Drain(AfterHeader(d))
  {
    hide FromBe;
  }

  /** Any part of the stream drains without an error exit. */
  lemma {:induction false} DrainPrefix(d: Decoder, ms: seq<Outgoing>, n: nat)
    requires !d.inPayload && n <= |Stream(ms)| && d.rest == Stream(ms)[..n]
    requires forall i :: 0 <= i < |ms| ==> Sendable(ms[i])
    ensures Drain(d).ok
    decreases |ms|
  {
    if ms != [] {
      var m, frame := ms[0], Encode(ms[0]);
      EncodeParts(m);
      if n >= |frame| {
        var tail := Stream(ms[1..])[..n - |frame|];
        assert d.rest == frame + tail;
        DrainFrame(d, m, tail);
        DrainPrefix(Decoder(false, |m.data| + 17, tail, Expect(d.last, m.id), d.got + [Report(m)]),
            ms[1..], n - |frame|);
      } else {
        assert d.rest == frame[..n];
        if n >= 4 {
          assert d.rest[..4] == frame[..4];
        }
      }
    }
  }

  /** last_recv_msg_id after a run of ids. */
  function LastOf(last: nat, ms: seq<Outgoing>): nat
    decreases |ms|
  {
    if ms == [] then last else LastOf(Expect(last, ms[0].id), ms[1..])
  }

  /** The whole stream at once: every message, in order, and nothing left over. */
  lemma {:induction false} DrainStream(d: Decoder, ms: seq<Outgoing>)
    requires !d.inPayload && d.rest == Stream(ms)
    requires forall i :: 0 <= i < |ms| ==> Sendable(ms[i])
    ensures Drain(d).ok
    ensures var e := Drain(d).d;
            e.rest == [] && !e.inPayload && e.got == d.got + Reports(ms) && e.last == LastOf(d.last, ms)
    decreases |ms|
  {
    if ms == [] {
    } else {
      var m := ms[0];
      DrainFrame(d, m, Stream(ms[1..]));
      var d' := Decoder(false, |m.data| + 17, Stream(ms[1..]), Expect(d.last, m.id), d.got + [Report(m)]);
      DrainStream(d', ms[1..]);
      assert Reports(ms) == [Report(m)] + Reports(ms[1..]);
    }
  }

  /** The encoder numbers its messages consecutively, wrapping at 64 bits. */
  ghost predicate Consecutive(last: nat, ms: seq<Outgoing>) {
    forall i :: 0 <= i < |ms| ==> ms[i].id == (last + 1 + i) % ID_MOD
  }

  lemma {:induction false} LastIsLastConsecutive(last: nat, ms: seq<Outgoing>)
    requires last < ID_MOD && Consecutive(last, ms)
    ensures LastOf(last, ms) == (last + |ms|) % ID_MOD
    decreases |ms|
  {
    if ms != [] {
      var next := (last + 1) % ID_MOD;
      assert ms[0].id == next;
      assert Consecutive(next, ms[1..]) by {
        forall i | 0 <= i < |ms| - 1 ensures ms[1..][i].id == (next + 1 + i) % ID_MOD {
          assert ms[1..][i] == ms[i + 1];
          WrapAgain(last, 1 + i);
        }
      }
      LastIsLastConsecutive(next, ms[1..]);
      WrapAgain(last, |ms| - 1);
    }
  }

  lemma {:induction false} WrapAgain(last: nat, i: nat)
    requires last < ID_MOD
    ensures ((last + 1) % ID_MOD + i) % ID_MOD == (last + 1 + i) % ID_MOD
  {
    if last + 1 < ID_MOD {
      assert (last + 1) % ID_MOD == last + 1;
    } else {
      assert (last + 1) % ID_MOD == 0;
      assert (ID_MOD + i) % ID_MOD == i % ID_MOD;
    }
  }

  // ------------------------------------------------------------ chunk by chunk

  /** The connection's receive state: the bytes its buffer has used up since it was last
      emptied, and the decoder. */
  datatype Receiver = Receiver(used: nat, d: Decoder)

  /** on_tcp_recv_cb with nread = |chunk|: an append that does not fit drops the chunk, and the
      buffer is emptied only when every byte in it has been read. */
  function Feed(c: Receiver, cap: nat, chunk: seq<Byte>): Receiver {
    if chunk == [] || c.used + |chunk| > cap then c
    else
      var r := Drain(More(c.d, chunk));
      Receiver(if r.ok && r.d.rest == [] then 0 else c.used + |chunk|, r.d)
  }

  function FeedAll(c: Receiver, cap: nat, chunks: seq<seq<Byte>>): Receiver
    decreases |chunks|
  {
    if chunks == [] then c else FeedAll(Feed(c, cap, chunks[0]), cap, chunks[1..])
  }

  ghost predicate AllFit(c: Receiver, cap: nat, chunks: seq<seq<Byte>>)
    decreases |chunks|
  {
    chunks == [] || (c.used + |chunks[0]| <= cap && AllFit(Feed(c, cap, chunks[0]), cap, chunks[1..]))
  }

  function Join(chunks: seq<seq<Byte>>): seq<Byte>
    decreases |chunks|
  {
    if chunks == [] then [] else chunks[0] + Join(chunks[1..])
  }

  /** The next chunk of a stream of which `seen` bytes have been drained. */
  lemma {:induction false} FeedOne(c: Receiver, cap: nat, chunk: seq<Byte>, ms: seq<Outgoing>, seen: nat, d0: Decoder)
    requires forall i :: 0 <= i < |ms| ==> Sendable(ms[i])
    requires !d0.inPayload && seen + |chunk| <= |Stream(ms)| && chunk == Stream(ms)[seen..seen + |chunk|]
    requires c.d == Drain(d0.(rest := Stream(ms)[..seen])).d && c.used + |chunk| <= cap
    ensures Feed(c, cap, chunk).d == Drain(d0.(rest := Stream(ms)[..seen + |chunk|])).d
  {
    hide Drain, Stream, Sendable;
    var s := Stream(ms);
    var before := d0.(rest := s[..seen]);
    assert s[..seen] + chunk == s[..seen + |chunk|];
    if chunk != [] {
      DrainPrefix(before, ms, seen);
      DrainMore(before, chunk);
      assert More(before, chunk) == d0.(rest := s[..seen + |chunk|]);
    }
  }

  lemma {:induction false} JoinHead(chunks: seq<seq<Byte>>, s: seq<Byte>, seen: nat)
    requires chunks != [] && seen + |Join(chunks)| <= |s| && Join(chunks) == s[seen..seen + |Join(chunks)|]
    ensures var n := |chunks[0]|; var rest := Join(chunks[1..]);
      && |Join(chunks)| == n + |rest| && chunks[0] == s[seen..seen + n]
      && rest == s[seen + n..seen + n + |rest|]
  {
    var n, rest := |chunks[0]|, Join(chunks[1..]);
    var all := s[seen..seen + |Join(chunks)|];
    assert Join(chunks) == chunks[0] + rest;
    assert all[..n] == s[seen..seen + n] && all[n..] == s[seen + n..seen + n + |rest|];
  }

  /** Feeding chunks that all fit, when `seen` bytes of the stream have been drained, ends where
      draining those bytes and the chunks at once ends. */
  lemma {:induction false} FeedReachesStream(
      c: Receiver, cap: nat, chunks: seq<seq<Byte>>, ms: seq<Outgoing>, seen: nat, d0: Decoder)
    requires forall i :: 0 <= i < |ms| ==> Sendable(ms[i])
    requires !d0.inPayload && seen + |Join(chunks)| <= |Stream(ms)|
    requires Join(chunks) == Stream(ms)[seen..seen + |Join(chunks)|]
    requires c.d == Drain(d0.(rest := Stream(ms)[..seen])).d
    requires AllFit(c, cap, chunks)
    ensures FeedAll(c, cap, chunks).d == Drain(d0.(rest := Stream(ms)[..seen + |Join(chunks)|])).d
    decreases |chunks|
  {
    hide Drain, Stream, Sendable, Feed;
    if chunks != [] {
      JoinHead(chunks, Stream(ms), seen);
      FeedOne(c, cap, chunks[0], ms, seen, d0);
      FeedReachesStream(Feed(c, cap, chunks[0]), cap, chunks[1..], ms, seen + |chunks[0]|, d0);
    }
  }

  /** For every sequence of encoded messages and every split of their bytes into chunks that
      all fit: the decoder reports exactly those messages in order, holds no bytes back, and
      when they are numbered on from last_recv_msg_id leaves it at the last one. */
  lemma {:induction false} ChunksDecodeAsWhole(ms: seq<Outgoing>, chunks: seq<seq<Byte>>, cap: nat, last: nat)
    requires forall i :: 0 <= i < |ms| ==> Sendable(ms[i])
    requires Join(chunks) == Stream(ms) && last < ID_MOD
    requires AllFit(Receiver(0, Decoder(false, 0, [], last, [])), cap, chunks)
    ensures var c := FeedAll(Receiver(0, Decoder(false, 0, [], last, [])), cap, chunks);
            && c.d.got == Reports(ms) && c.d.rest == [] && !c.d.inPayload
            && c.d.last == LastOf(last, ms)
            && (Consecutive(last, ms) ==> c.d.last == (last + |ms|) % ID_MOD)
  {
    hide Drain, Stream, Sendable, AllFit, FeedAll, Reports;
    var d0, s := Decoder(false, 0, [], last, []), Stream(ms);
    assert s[0..|s|] == s && s[..|s|] == s && s[..0] == [];
    DrainNothing(d0);
    FeedReachesStream(Receiver(0, d0), cap, chunks, ms, 0, d0);
    DrainStream(d0.(rest := s), ms);
    assert [] + Reports(ms) == Reports(ms);
    if Consecutive(last, ms) { LastIsLastConsecutive(last, ms); }
  }

  lemma {:induction false} DrainNothing(d: Decoder)
    requires !d.inPayload && d.rest == []
    ensures Drain(d) == Drained(d, true)
  {
  }

  // ------------------------------------------------------------ when a chunk does not fit

  /** Draining part of a stream reports only messages of the stream, in order. */
  lemma {:induction false} DrainPrefixReports(d: Decoder, ms: seq<Outgoing>, n: nat)
    requires !d.inPayload && n <= |Stream(ms)| && d.rest == Stream(ms)[..n]
    requires forall i :: 0 <= i < |ms| ==> Sendable(ms[i])
    ensures d.got <= Drain(d).d.got <= d.got + Reports(ms)
    decreases |ms|
  {
    hide Drain, Encode, Sendable, Reports;
    if ms == [] {
      DrainNothing(d);
      assert d.got <= d.got + Reports(ms);
    } else {
      hide Stream;
      var m, frame := ms[0], Encode(ms[0]);
      StreamSplit(ms);
      ReportsSplit(ms);
      if n >= |frame| {
        var tail := Stream(ms[1..])[..n - |frame|];
        PrefixPastFrame(frame, Stream(ms[1..]), n);
        var d' := Decoder(false, |m.data| + 17, tail, Expect(d.last, m.id), d.got + [Report(m)]);
        DrainFrame(d, m, tail);
        DrainPrefixReports(d', ms[1..], n - |frame|);
        assert d.got + Reports(ms) == d'.got + Reports(ms[1..]);
        assert d.got <= d'.got;
      } else {
        assert d.rest == frame[..n];
        DrainPartFrame(d, m, n);
      }
    }
  }

  lemma {:induction false} PrefixPastFrame(frame: seq<Byte>, tail: seq<Byte>, n: nat)
    requires |frame| <= n <= |frame + tail|
    ensures (frame + tail)[..n] == frame + tail[..n - |frame|]
  {
  }

  lemma {:induction false} StreamSplit(ms: seq<Outgoing>)
    requires ms != []
    ensures Stream(ms) == Encode(ms[0]) + Stream(ms[1..])
  {
  }

  lemma {:induction false} ReportsSplit(ms: seq<Outgoing>)
    requires ms != []
    ensures Reports(ms) == [Report(ms[0])] + Reports(ms[1..])
  {
  }

  /** Part of a frame reports nothing. */
  lemma {:induction false} DrainPartFrame(d: Decoder, m: Outgoing, n: nat)
    requires Sendable(m) && !d.inPayload && n < |Encode(m)| && d.rest == Encode(m)[..n]
    ensures Drain(d).ok && Drain(d).d.got == d.got
  {
    EncodeParts(m);
    hide Encode, FromBe;
    if n >= 4 { assert d.rest[..4] == Encode(m)[..4]; }
  }

  lemma {:induction false} JoinPrefix(chunks: seq<seq<Byte>>, n: nat)
    requires n <= |chunks|
    ensures Join(chunks[..n]) <= Join(chunks)
    decreases n
  {
    if n > 0 {
      assert chunks[..n][0] == chunks[0] && chunks[..n][1..] == chunks[1..][..n - 1];
      JoinPrefix(chunks[1..], n - 1);
    }
  }

  /** Whatever the chunks and the buffer, until the first chunk that does not fit everything
      reported is a prefix of what was sent. */
  lemma {:induction false} ReportsPrefixUntilDrop(
      ms: seq<Outgoing>, chunks: seq<seq<Byte>>, cap: nat, last: nat, n: nat)
    requires forall i :: 0 <= i < |ms| ==> Sendable(ms[i])
    requires Join(chunks) == Stream(ms) && n <= |chunks|
    requires AllFit(Receiver(0, Decoder(false, 0, [], last, [])), cap, chunks[..n])
    ensures FeedAll(Receiver(0, Decoder(false, 0, [], last, [])), cap, chunks[..n]).d.got <= Reports(ms)
  {
    hide Drain, Stream, Sendable, AllFit, FeedAll, Reports, Join;
    var d0, s := Decoder(false, 0, [], last, []), Stream(ms);
    JoinPrefix(chunks, n);
    var k := |Join(chunks[..n])|;
    assert s[..0] == [] && s[0..k] == s[..k];
    DrainNothing(d0);
    FeedReachesStream(Receiver(0, d0), cap, chunks[..n], ms, 0, d0);
    DrainPrefixReports(d0.(rest := s[..k]), ms, k);
    assert [] + Reports(ms) == Reports(ms);
  }

  /** Afterwards nothing can be said: with a buffer of 18 bytes, two messages numbered 1 and 2, cut
      into four chunks of which the second does not fit, are reported as one message that was
      never sent. */
  lemma {:induction false} DroppedChunkMisreads()
    ensures var ms := [Outgoing(1, 0, [7]), Outgoing(2, 0, [7])];
      && Stream(ms) == Join(Cut())
      && !AllFit(Receiver(0, Decoder(false, 0, [], 0, [])), 18, Cut())
      && FeedAll(Receiver(0, Decoder(false, 0, [], 0, [])), 18, Cut()).d.got
         == [Msg(0x1200_0000_0000, 0x200_0000_0000, [0, 0])]
  {
    CutIsStream();
    var c0 := Receiver(0, Decoder(false, 0, [], 0, []));
    var cs: seq<seq<Byte>> := Cut();
    var cs3: seq<seq<Byte>> := cs[3..];
    var c1 := Receiver(0, Decoder(true, 18, [], 0, []));
    MisreadHeader(c0, c1);
    var c3 := Receiver(0, Decoder(false, 18, [], 0, [Msg(0x1200_0000_0000, 0x200_0000_0000, [0, 0])]));
    MisreadPayload(c1, c3);
    var c4 := Feed(c3, 18, cs[3]);
    MisreadRest(c3);
    hide Feed, Stream;
    assert cs[1..] == [cs[1], cs[2], cs[3]] && cs[1..][1..] == [cs[2], cs[3]];
    assert cs[1..][1..][1..] == [cs[3]] && cs3 == [cs[3]] && |cs3[1..]| == 0;
    assert FeedAll(c4, 18, []) == c4;
    assert FeedAll(c3, 18, [cs[3]]) == c4;
    assert FeedAll(c1, 18, [cs[2], cs[3]]) == c4;
    assert FeedAll(c1, 18, cs[1..]) == FeedAll(c1, 18, [cs[2], cs[3]]);
    assert FeedAll(c0, 18, cs) == c4;
  }

  function Cut(): seq<seq<Byte>> {
    [[0, 0, 0, 18],
     [0, 0, 0, 0, 0, 0, 0, 1, 0, 0, 0, 0, 0, 0, 0, 0, 7, 0, 0],
     [0, 0, 18, 0, 0, 0, 0, 0, 0, 0, 2, 0, 0, 0, 0, 0, 0, 0],
     [0, 7, 0]]
  }

  lemma {:induction false} CutIsStream()
    ensures Stream([Outgoing(1, 0, [7]), Outgoing(2, 0, [7])]) == Join(Cut())
  {
    hide Stream, Join, Encode;
    var m1, m2 := Outgoing(1, 0, [7]), Outgoing(2, 0, [7]);
    SmallFrame(m1);
    SmallFrame(m2);
    StreamOfTwo(m1, m2);
    JoinOfFour(Cut());
    CutAtTheFrame(Encode(m1), Encode(m2), Cut());
  }

  lemma {:induction false} CutAtTheFrame(f1: seq<Byte>, f2: seq<Byte>, cs: seq<seq<Byte>>)
    requires f1 == [0, 0, 0, 18, 0, 0, 0, 0, 0, 0, 0, 1, 0, 0, 0, 0, 0, 0, 0, 0, 7, 0]
    requires f2 == [0, 0, 0, 18, 0, 0, 0, 0, 0, 0, 0, 2, 0, 0, 0, 0, 0, 0, 0, 0, 7, 0]
    requires cs == Cut()
    ensures cs[0] + cs[1] + cs[2] + cs[3] == f1 + f2
  {
    assert |cs[0] + cs[1] + cs[2] + cs[3]| == 44;
  }

  lemma {:induction false} StreamOfTwo(a: Outgoing, b: Outgoing)
    ensures Stream([a, b]) == Encode(a) + Encode(b)
  {
    hide Encode;
    StreamSplit([a, b]);
    StreamSplit([b]);
    assert [a, b][1..] == [b] && [b][1..] == [];
  }

  lemma {:induction false} JoinOfFour(cs: seq<seq<Byte>>)
    requires |cs| == 4
    ensures Join(cs) == cs[0] + cs[1] + cs[2] + cs[3]
  {
    assert cs[1..][1..] == cs[2..] && cs[2..][1..] == cs[3..] && cs[3..][1..] == [];
    assert Join(cs[3..]) == cs[3] + Join([]) == cs[3];
    assert Join(cs[2..]) == cs[2] + cs[3];
    assert Join(cs[1..]) == cs[1] + (cs[2] + cs[3]);
  }

  lemma {:induction false} SmallNumber(n: nat, k: nat)
    requires n < 256 && k > 0
    ensures ToBe(n, k) == seq(k - 1, i => 0) + [n]
  {
    if k > 1 { SmallNumber(0, k - 1); }
  }

  lemma {:induction false} SmallFrame(m: Outgoing)
    requires m.id < 256 && m.stamp == 0 && m.data == [7]
    ensures Encode(m) == [0, 0, 0, 18, 0, 0, 0, 0, 0, 0, 0, m.id, 0, 0, 0, 0, 0, 0, 0, 0, 7, 0]
  {
    hide ToBe;
    SmallNumber(18, 4);
    SmallNumber(m.id, 8);
    SmallNumber(0, 8);
  }

  lemma {:induction false} MisreadHeader(c: Receiver, c': Receiver)
    requires c == Receiver(0, Decoder(false, 0, [], 0, [])) && c' == Receiver(0, Decoder(true, 18, [], 0, []))
    ensures Feed(c, 18, Cut()[0]) == c' && Feed(c', 18, Cut()[1]) == c'
  {
    var d := More(c.d, Cut()[0]);
    assert d.rest == [0, 0, 0, 18];
    assert d.rest[..4] == [0, 0, 0, 18] && d.rest[4..] == [];
    FromBe4(0, 0, 0, 18);
    assert AfterHeader(d) == c'.d;
    assert Drain(c'.d) == Drained(c'.d, true);
  }

  lemma {:induction false} FromBePush(s: seq<Byte>, b: Byte)
    ensures FromBe(s + [b]) == FromBe(s) * 256 + b
  {
    assert (s + [b])[..|s|] == s;
  }

  lemma {:induction false} FromBe4(a: Byte, b: Byte, c: Byte, d: Byte)
    ensures FromBe([a, b, c, d]) == ((a * 256 + b) * 256 + c) * 256 + d
  {
    FromBePush([], a);
    FromBePush([a], b);
    FromBePush([a, b], c);
    FromBePush([a, b, c], d);
    assert [] + [a] == [a] && [a] + [b] == [a, b] && [a, b] + [c] == [a, b, c];
    hide FromBe;
    assert [a, b, c] + [d] == [a, b, c, d];
  }

  /** Numbers whose bytes are all zero but the third of eight. */
  lemma {:induction false} FromBe8(b: Byte)
    ensures FromBe([0, 0, b, 0, 0, 0, 0, 0]) == b * 0x100_0000_0000
  {
    hide FromBe;
    FromBe4(0, 0, b, 0);
    FromBePush([0, 0, b, 0], 0);
    FromBePush([0, 0, b, 0, 0], 0);
    FromBePush([0, 0, b, 0, 0, 0], 0);
    FromBePush([0, 0, b, 0, 0, 0, 0], 0);
    assert [0, 0, b, 0] + [0] == [0, 0, b, 0, 0];
    assert [0, 0, b, 0, 0] + [0] == [0, 0, b, 0, 0, 0];
    assert [0, 0, b, 0, 0, 0] + [0] == [0, 0, b, 0, 0, 0, 0];
    assert [0, 0, b, 0, 0, 0, 0] + [0] == [0, 0, b, 0, 0, 0, 0, 0];
  }

  lemma {:induction false} MisreadPayload(c: Receiver, c': Receiver)
    requires c == Receiver(0, Decoder(true, 18, [], 0, []))
    requires c' == Receiver(0, Decoder(false, 18, [], 0, [Msg(0x1200_0000_0000, 0x200_0000_0000, [0, 0])]))
    ensures Feed(c, 18, Cut()[2]) == c'
  {
    hide FromBe, Drain;
    var d := c.d.(rest := Cut()[2]);
    assert More(c.d, Cut()[2]) == d && |d.rest| == 18;
    CutPayload();
    FromBe8(18);
    FromBe8(2);
    DrainPayload(d);
    assert AfterMessage(d, 2) == c'.d;
    DrainNothing(c'.d);
  }

  lemma {:induction false} CutPayload()
    ensures var r := Cut()[2];
            && |r| == 18 && r[18..] == [] && r[16..18] == [0, 0]
            && r[..8] == [0, 0, 18, 0, 0, 0, 0, 0] && r[8..16] == [0, 0, 2, 0, 0, 0, 0, 0]
  {
  }

  lemma {:induction false} MisreadRest(c: Receiver)
    requires c.used == 0 && !c.d.inPayload && c.d.rest == []
    ensures Feed(c, 18, Cut()[3]).d.got == c.d.got
  {
  }

  // ------------------------------------------------------------ the objects that do it

  /** tn_buffer_t: `len` bytes of `mem` are written and the cursor covers the last `unread`. */
  class Buffer {
    const mem: array<Byte>
    var len: nat
    var pos: nat
    var unread: nat

    ghost predicate Valid()
      reads this
    {
      pos + unread == len <= mem.Length
    }

    ghost function Unread(): (s: seq<Byte>)
      requires Valid()
      reads this, mem
    {
      mem[pos..len]
    }

    constructor (capacity: nat)
      ensures Valid() && fresh(mem) && mem.Length == capacity && len == 0 && Unread() == []
    {
      mem := new Byte[capacity](_ => 0);
      len, pos, unread := 0, 0, 0;
    }

    /** tn_buffer_write. */
    method Write(src: seq<Byte>) returns (ok: bool)
      requires Valid()
      modifies this, mem
      ensures Valid()
      ensures ok <==> old(len) + |src| <= mem.Length
      ensures Unread() == old(Unread()) + (if ok then src else [])
      ensures len == old(len) + (if ok then |src| else 0)
    {
      if len + |src| > mem.Length { return false; }
      forall i | 0 <= i < |src| { mem[len + i] := src[i]; }
      assert mem[len..len + |src|] == src;
      assert mem[pos..len] == old(mem[pos..len]);
      len := len + |src|;
      unread := unread + |src|;
      ok := true;
    }

    /** aws_byte_cursor_read: all or nothing. */
    method Read(n: nat) returns (ok: bool, s: seq<Byte>)
      requires Valid()
      modifies this
      ensures Valid() && len == old(len)
      ensures ok <==> n <= |old(Unread())|
      ensures ok ==> s == old(Unread())[..n] && Unread() == old(Unread())[n..]
      ensures !ok ==> s == [] && Unread() == old(Unread())
    {
      if n > unread { return false, []; }
      s := mem[pos..pos + n];
      assert s == mem[pos..len][..n] && mem[pos + n..len] == mem[pos..len][n..];
      pos := pos + n;
      unread := unread - n;
      ok := true;
    }

    /** tn_buffer_read_skip reports failure when asked to skip nothing. */
    method Skip(n: nat) returns (ok: bool)
      requires Valid()
      modifies this
      ensures Valid() && len == old(len)
      ensures ok <==> 0 < n <= |old(Unread())|
      ensures Unread() == old(Unread())[if ok then n else 0..]
    {
      if n > unread { return false; }
      assert mem[pos + n..len] == mem[pos..len][n..];
      pos := pos + n;
      unread := unread - n;
      ok := n > 0;
    }

    /** tn_buffer_reset. */
    method Reset()
      requires Valid()
      modifies this
      ensures Valid() && len == 0 && Unread() == []
    {
      len := 0;
      pos := 0;
      unread := 0;
    }
  }

  lemma {:induction false} ReadTwice(r: seq<Byte>)
    requires |r| >= 8
    ensures |r| >= 16 ==> r[8..][..8] == r[8..16] && r[8..][8..] == r[16..]
  {
  }

  lemma {:induction false} SkipThird(r: seq<Byte>, n: nat)
    requires |r| >= 16 + n
    ensures r[16..][n..] == r[16 + n..]
  {
  }

  /** The receiving half of tcp_conn_t. */
  class Connection {
    const buffer: Buffer
    var inPayload: bool
    var need: nat
    var last: nat
    ghost var got: seq<Msg>

    ghost predicate Valid()
      reads this, buffer
    {
      buffer.Valid()
    }

    ghost function State(): Decoder
      requires Valid()
      reads this, buffer, buffer.mem
    {
      Decoder(inPayload, need, buffer.Unread(), last, got)
    }

    constructor (capacity: nat)
      ensures Valid() && fresh(buffer) && fresh(buffer.mem) && buffer.mem.Length == capacity
      ensures buffer.len == 0 && State() == Decoder(false, 0, [], 0, [])
    {
      buffer := new Buffer(capacity);
      inPayload, need, last := false, 0, 0;
      got := [];
    }

    /** The payload branch of the loop; `ok` is false when a read or the skip fails. */
    method ReadMessage() returns (ok: bool)
      requires Valid() && inPayload && |State().rest| >= need
      modifies this, buffer
      ensures Valid() && buffer.len == old(buffer.len)
      ensures ok ==> Drain(old(State())) == Drain(State()) && |State().rest| < |old(State()).rest|
      ensures !ok ==> Drain(old(State())) == Drained(State(), false)
    {
      hide Drain, FromBe;
      ghost var d := State();
      DrainPayload(d);
      var id;
      ghost var stamp;
      ok, id, stamp := ReadHead();
      if !ok { return; }
      var remaining := (need - 16) % LEN_MOD;
      ok := buffer.Skip(remaining);
      SkipThird(d.rest, if ok then remaining else 0);
      if !ok { return; }
      Record(id, stamp, d.rest[16..16 + remaining]);
      assert State() == AfterMessage(d, remaining);
    }

    /** The id and the stamp, each read only if all its bytes are there. */
    method ReadHead() returns (ok: bool, id: nat, ghost stamp: nat)
      requires Valid()
      modifies buffer
      ensures Valid() && buffer.len == old(buffer.len)
      ensures ok <==> |old(buffer.Unread())| >= 16
      ensures var r := old(buffer.Unread());
              && buffer.Unread() == r[if ok then 16 else if |r| >= 8 then 8 else 0..]
              && (ok ==> id == FromBe(r[..8]) && stamp == FromBe(r[8..16]))
    {
      hide FromBe;
      ghost var r := buffer.Unread();
      id, stamp := 0, 0;
      var bytes;
      ok, bytes := buffer.Read(8);
      if !ok { return; }
      id := FromBe(bytes);
      ok, bytes := buffer.Read(8);
      ReadTwice(r);
      if !ok { return; }
      stamp := FromBe(bytes);
    }

    /** A message is reported and its number compared with the one expected. */
    method Record(id: nat, ghost stamp: nat, ghost body: seq<Byte>)
      requires Valid()
      modifies this
      ensures Valid()
      ensures State() == old(State()).(inPayload := false, last := Expect(old(last), id),
                                       got := old(got) + [Msg(id, stamp, body)])
    {
      var expected := (last + 1) % ID_MOD;
      if id == expected { last := expected; }
      inPayload := false;
      got := got + [Msg(id, stamp, body)];
    }

    /** on_tcp_recv_cb. */
    method OnRecv(chunk: seq<Byte>)
      requires Valid()
      modifies this, buffer, buffer.mem
      ensures Valid()
      ensures Receiver(buffer.len, State()) == Feed(Receiver(old(buffer.len), old(State())), buffer.mem.Length, chunk)
    {
      if chunk == [] { return; }
      var fits := buffer.Write(chunk);
      if !fits { return; }
      ghost var whole := More(old(State()), chunk);
      assert State() == whole;
      var processing := true;
      while processing
        invariant Valid() && buffer.len == old(buffer.len) + |chunk|
        invariant if processing then Drain(State()) == Drain(whole) else Drain(whole) == Drained(State(), true)
        decreases processing, buffer.unread
      {
        if !inPayload {
          if buffer.unread < 4 {
            processing := false;
          } else {
            ghost var d := State();
            var ok, bytes := buffer.Read(4);
            need := FromBe(bytes);
            inPayload := true;
            assert State() == AfterHeader(d);
          }
        } else if buffer.unread < need {
          processing := false;
        } else {
          ghost var d := State();
          var ok := ReadMessage();
          if !ok { return; }
        }
      }
      if buffer.unread == 0 { buffer.Reset(); }
    }
  }
}
