/**
 Sender, socket and reader composed: what a run of send_message calls hands to the callbacks at
 the other end, for every socket behaviour and every way the bytes arrive.
 */
module EndToEnd {
  import opened Words
  import opened Messages
  import opened Codec
  import opened RoundTrip
  import opened Archives
  import opened Lengths
  import opened Frames
  import opened SocketQueues
  import opened Readers

  datatype Send = Send(msg: Msg, stamp: U64)
  datatype Frame = Frame(msg: Msg, session: U32, stamp: U64)

  // The first message of a connection has session index 1; the counter is a uint32_t.
  function FrameOf(sends: seq<Send>, i: nat): Frame
    requires i < |sends|
  {
    Frame(sends[i].msg, (i + 1) % 0x1_0000_0000, sends[i].stamp)
  }

  function FrameBytes(f: Frame): Bytes {
    Record(f.msg, f.session, f.stamp).bytes
  }

  function Records(sends: seq<Send>): (r: seq<Bytes>)
    ensures |r| == |sends|
  {
    seq(|sends|, i requires 0 <= i < |sends| => FrameBytes(FrameOf(sends, i)))
  }

  // The frames that were not dropped.
  function KeptFrames(sends: seq<Send>, kept: seq<bool>): seq<Frame>
    requires |kept| <= |sends|
  {
    if kept == [] then [] else
    var n := |kept| - 1;
    KeptFrames(sends, kept[..n]) + if kept[n] then [FrameOf(sends, n)] else []
  }

  function JoinFrames(fs: seq<Frame>): Bytes {
    if fs == [] then [] else FrameBytes(fs[0]) + JoinFrames(fs[1..])
  }

  lemma {:induction false} JoinLast(fs: seq<Frame>, f: Frame)
    ensures JoinFrames(fs + [f]) == JoinFrames(fs) + FrameBytes(f)
  {
    if fs == [] {
      assert [f][1..] == [];
      assert JoinFrames([f]) == FrameBytes(f) + [];
    } else {
      assert (fs + [f])[1..] == fs[1..] + [f];
      JoinLast(fs[1..], f);
      Assoc(FrameBytes(fs[0]), JoinFrames(fs[1..]), FrameBytes(f));
    }
  }

  lemma {:induction false} KeptJoined(sends: seq<Send>, kept: seq<bool>)
    requires |kept| <= |sends|
    ensures KeptBytes(Records(sends), kept) == JoinFrames(KeptFrames(sends, kept))
  {
    hide FrameBytes;
    if kept != [] {
      var n := |kept| - 1;
      KeptJoined(sends, kept[..n]);
      if kept[n] {
        JoinLast(KeptFrames(sends, kept[..n]), FrameOf(sends, n));
      } else {
        assert KeptFrames(sends, kept) == KeptFrames(sends, kept[..n]);
      }
    }
  }

  // ---------- the reader on whole frames ----------

  // What one frame does to the reader.
  function Take(idle: bool, r: Reader, f: Frame): Reader {
    var r' := Note(r, f.session);
    if idle && f.msg.MdDeltaMsg? then r' else r'.(delivered := r'.delivered + [f.msg])
  }

  function TakeAll(idle: bool, r: Reader, fs: seq<Frame>): Reader
    decreases |fs|
  {
    if fs == [] then r else TakeAll(idle, Take(idle, r, fs[0]), fs[1..])
  }

  lemma FrameParts(f: Frame)
    requires Fits(f.msg)
    ensures var b, h := FrameBytes(f), HeaderFor(f.msg, f.session);
            && |b| == HEADER_LEN + h.len && h.len >= WIRE_TSTAMP_LEN && h.len <= ARCHIVE_BUFF_CAPACITY
            && ReadHeader(b[..HEADER_LEN]) == h
            && b[HEADER_LEN..] == Flat(PutU64(f.stamp)) + Payload(f.msg)
  {
    var b, h := FrameBytes(f), HeaderFor(f.msg, f.session);
    RecordOfFitting(f.msg, f.session, f.stamp);
    HeaderRoundTrip(h);
    hide HeaderFor, Payload, HeaderBytes, ReadHeader, Record;
    assert b == (HeaderBytes(h) + Wire64(f.stamp)) + Payload(f.msg);
    assert b[..HEADER_LEN] == HeaderBytes(h);
    assert b[HEADER_LEN..] == Wire64(f.stamp) + Payload(f.msg);
  }

  lemma HandleFrame(idle: bool, r: Reader, f: Frame)
    requires Fits(f.msg)
    ensures Handle(idle, r, true, MsgType(f.msg), Flat(PutU64(f.stamp)) + Payload(f.msg)) ==
            Next(if idle && f.msg.MdDeltaMsg? then r else r.(delivered := r.delivered + [f.msg]), true)
  {
    U64RoundTrip(f.stamp);
    assert GetU64(Flat(PutU64(f.stamp)) + Payload(f.msg)) == Got(f.stamp, Payload(f.msg));
    hide GetU64, PutU64, GetMsg, Payload;
    MsgRoundTrip(f.msg, []);
    assert Payload(f.msg) + [] == Payload(f.msg);
  }

  lemma WholeFrame(idle: bool, r: Reader, h: Header, b: Bytes, rest: Bytes)
    requires r.inbuf == b + rest && |b| == HEADER_LEN + h.len && 0 < h.len <= ARCHIVE_BUFF_CAPACITY
    requires ReadHeader(b[..HEADER_LEN]) == h && h.pfix == TAG_SOH
    ensures ReadRound(idle, r, true) == Handle(idle, Note(r.(inbuf := rest), h.session), true, h.mtype, b[HEADER_LEN..])
  {
    hide ReadHeader, Handle;
    var body := b[HEADER_LEN..];
    assert r.inbuf[..HEADER_LEN] == b[..HEADER_LEN];
    assert r.inbuf[HEADER_LEN..] == body + rest;
    assert (body + rest)[..h.len] == body && (body + rest)[h.len..] == rest;
  }

  lemma StepFrame(idle: bool, r: Reader, f: Frame, rest: Bytes)
    requires Fits(f.msg) && r.inbuf == FrameBytes(f) + rest
    ensures ReadRound(idle, r, true) == Next(Take(idle, r, f).(inbuf := rest), true)
  {
    FrameParts(f);
    HandleFrame(idle, Note(r.(inbuf := rest), f.session), f);
    WholeFrame(idle, r, HeaderFor(f.msg, f.session), FrameBytes(f), rest);
  }

  lemma StepPart(idle: bool, r: Reader, f: Frame)
    requires Fits(f.msg) && |r.inbuf| < |FrameBytes(f)| && r.inbuf == FrameBytes(f)[..|r.inbuf|]
    ensures ReadRound(idle, r, true) == Wait
  {
    FrameParts(f);
    hide FrameBytes, ReadHeader, Payload;
    if |r.inbuf| > HEADER_LEN {
      assert r.inbuf[..HEADER_LEN] == FrameBytes(f)[..HEADER_LEN];
    }
  }

  // The bytes left when the last frame has not arrived in full.
  ghost predicate Partial(tail: Bytes, f: Frame) {
    |tail| < |FrameBytes(f)| && tail == FrameBytes(f)[..|tail|]
  }

  lemma {:induction false} ReadFrames(idle: bool, r: Reader, fs: seq<Frame>, tail: Bytes, next: Frame)
    requires forall f :: f in fs ==> Fits(f.msg)
    requires Fits(next.msg) && Partial(tail, next) && r.inbuf == JoinFrames(fs) + tail
    ensures Rounds(idle, true, r, true) == Result(true, TakeAll(idle, r, fs).(inbuf := tail))
    ensures !DeliversAfterShort(idle, r, false)
    decreases |fs|
  {
    hide ReadRound, FrameBytes, Take, Fits;
    if fs == [] {
      assert [] + tail == tail;
      StepPart(idle, r, next);
    } else {
      var rest := JoinFrames(fs[1..]) + tail;
      Assoc(FrameBytes(fs[0]), JoinFrames(fs[1..]), tail);
      assert fs[0] in fs && forall f :: f in fs[1..] ==> f in fs;
      StepFrame(idle, r, fs[0], rest);
      var r' := Take(idle, r, fs[0]).(inbuf := rest);
      ReadFrames(idle, r', fs[1..], tail, next);
      TakeIgnoresBuffer(idle, Take(idle, r, fs[0]), rest, fs[1..]);
    }
  }

  lemma {:induction false} TakeIgnoresBuffer(idle: bool, r: Reader, b: Bytes, fs: seq<Frame>)
    ensures TakeAll(idle, r.(inbuf := b), fs) == TakeAll(idle, r, fs).(inbuf := b)
    decreases |fs|
  {
    if fs != [] {
      TakeIgnoresBuffer(idle, Take(idle, r, fs[0]), b, fs[1..]);
    }
  }

  // A prefix of joined frames is some whole frames and part of the next.
  lemma {:induction false} SplitPrefix(fs: seq<Frame>, p: Bytes) returns (k: nat, tail: Bytes)
    requires p <= JoinFrames(fs)
    ensures k <= |fs| && p == JoinFrames(fs[..k]) + tail
    ensures if k < |fs| then Partial(tail, fs[k]) else tail == []
    ensures p == JoinFrames(fs) ==> k == |fs|
  {
    hide FrameBytes;
    if fs == [] {
      k, tail := 0, [];
    } else {
      var first := FrameBytes(fs[0]);
      if |p| < |first| {
        k, tail := 0, p;
        assert JoinFrames(fs)[..|p|] == first[..|p|];
        assert fs[..0] == [];
        assert [] + p == p;
      } else {
        var p' := p[|first|..];
        assert p == first + p' by {
          assert JoinFrames(fs)[..|first|] == first;
          assert p[..|first|] == JoinFrames(fs)[..|p|][..|first|];
        }
        assert p' <= JoinFrames(fs[1..]) by {
          assert JoinFrames(fs)[|first|..] == JoinFrames(fs[1..]);
          assert p' == JoinFrames(fs)[..|p|][|first|..];
        }
        var k', t := SplitPrefix(fs[1..], p');
        k, tail := k' + 1, t;
        assert fs[..k][0] == fs[0] && fs[..k][1..] == fs[1..][..k'];
        Assoc(first, JoinFrames(fs[1..][..k']), tail);
      }
    }
  }

  // ---------- the main theorem ----------

  // What the callbacks see of a frame: its message, unless it is a delta and the reader idles on deltas.
  function Seen(idle: bool, f: Frame): seq<Msg> {
    if idle && f.msg.MdDeltaMsg? then [] else [f.msg]
  }

  function Visible(idle: bool, fs: seq<Frame>): seq<Msg> {
    if fs == [] then [] else Seen(idle, fs[0]) + Visible(idle, fs[1..])
  }

  lemma TakeDelivers(idle: bool, r: Reader, f: Frame)
    ensures Take(idle, r, f).delivered == r.delivered + Seen(idle, f)
  {
  }

  lemma {:induction false} TakeAllDelivers(idle: bool, r: Reader, fs: seq<Frame>)
    ensures TakeAll(idle, r, fs).delivered == r.delivered + Visible(idle, fs)
    decreases |fs|
  {
    hide Take, Seen;
    if fs == [] {
      assert r.delivered + [] == r.delivered;
    } else {
      TakeDelivers(idle, r, fs[0]);
      TakeAllDelivers(idle, Take(idle, r, fs[0]), fs[1..]);
      var one, more := Seen(idle, fs[0]), Visible(idle, fs[1..]);
      assert (r.delivered + one) + more == r.delivered + (one + more);
    }
  }

  const START := Reader([], 0, [], [])

  lemma {:induction false} KeptFit(sends: seq<Send>, kept: seq<bool>)
    requires |kept| <= |sends| && forall s :: s in sends ==> Fits(s.msg)
    ensures forall f :: f in KeptFrames(sends, kept) ==> Fits(f.msg)
  {
    hide Fits;
    if kept != [] {
      var n := |kept| - 1;
      KeptFit(sends, kept[..n]);
      assert sends[n] in sends;
    }
  }

  lemma RecordsNonempty(sends: seq<Send>)
    requires forall s :: s in sends ==> Fits(s.msg)
    ensures forall r :: r in Records(sends) ==> r != []
  {
    forall r | r in Records(sends) ensures r != [] {
      var i :| 0 <= i < |sends| && Records(sends)[i] == r;
      assert sends[i] in sends;
      FrameParts(FrameOf(sends, i));
    }
  }

  lemma ReadPrefix(idle: bool, fs: seq<Frame>, p: Bytes) returns (k: nat)
    requires forall f :: f in fs ==> Fits(f.msg)
    requires p <= JoinFrames(fs)
    ensures k <= |fs| && (p == JoinFrames(fs) ==> k == |fs|)
    ensures var got := Rounds(idle, true, Arrive(START, p), true);
            got.ok && got.r.(inbuf := []) == TakeAll(idle, START, fs[..k])
    ensures !DeliversAfterShort(idle, Arrive(START, p), false)
  {
    hide Fits, Rounds, DeliversAfterShort, TakeAll;
    var tail;
    k, tail := SplitPrefix(fs, p);
    var next := NextFrame(fs, k, tail);
    assert forall f :: f in fs[..k] ==> f in fs;
    var r := Arrive(START, p);
    assert r.inbuf == p;
    ReadFrames(idle, r, fs[..k], tail, next);
    TakeIgnoresBuffer(idle, START, p, fs[..k]);
    TakeKeepsBuffer(idle, START, fs[..k]);
  }

  // A frame that the last bytes may belong to; any will do when there are none.
  lemma NextFrame(fs: seq<Frame>, k: nat, tail: Bytes) returns (next: Frame)
    requires k <= |fs| && forall f :: f in fs ==> Fits(f.msg)
    requires if k < |fs| then Partial(tail, fs[k]) else tail == []
    ensures Fits(next.msg) && Partial(tail, next)
  {
    if k < |fs| {
      next := fs[k];
      assert next in fs;
    } else {
      next := Frame(Heartbeat(0), 0, 0);
      FrameParts(next);
    }
  }

  // Reading any arrived part of what was sent: k whole frames, and part of the next still waiting.
  lemma ReadStream(idle: bool, fs: seq<Frame>, arrivals: seq<Bytes>) returns (k: nat)
    requires forall f :: f in fs ==> Fits(f.msg)
    requires Join(arrivals) <= JoinFrames(fs)
    ensures k <= |fs| && (Join(arrivals) == JoinFrames(fs) ==> k == |fs|)
    ensures var got := ReadAll(idle, START, arrivals);
            got.ok && got.r.(inbuf := []) == TakeAll(idle, START, fs[..k])
  {
    hide Fits, Rounds, DeliversAfterShort, TakeAll, ReadAll;
    k := ReadPrefix(idle, fs, Join(arrivals));
    StepWaits(idle, START);
    AnyCut(idle, START, arrivals);
  }

  lemma {:induction false} TakeKeepsBuffer(idle: bool, r: Reader, fs: seq<Frame>)
    ensures TakeAll(idle, r, fs).inbuf == r.inbuf
    decreases |fs|
  {
    if fs != [] { TakeKeepsBuffer(idle, Take(idle, r, fs[0]), fs[1..]); }
  }

  // ---------- a stream whose outcome depends on how it arrives ----------

  // A frame of an unknown type that consists of its header only.
  function BareFrame(t: Byte, session: U32): Bytes {
    HeaderBytes(Header(TAG_SOH, t, 0, session))
  }

  lemma StepBare(r: Reader, t: Byte, session: U32, rest: Bytes)
    requires !KnownType(t) && rest != [] && r.inbuf == BareFrame(t, session) + rest
    ensures ReadRound(false, r, true) == Next(Note(r.(inbuf := rest), session), false)
  {
    var h := Header(TAG_SOH, t, 0, session);
    HeaderRoundTrip(h);
    assert r.inbuf[..HEADER_LEN] == HeaderBytes(h) && r.inbuf[HEADER_LEN..] == rest;
    hide ReadHeader, HeaderBytes;
    assert rest[..0] == [] && rest[0..] == rest;
  }

  /** A header without a payload, of a type this version does not know, and behind it a good frame:
      arriving together they close the connection, arriving one byte into the good frame and then
      the rest they deliver it. */
  lemma OutcomeDependsOnCut(t: Byte, session: U32, f: Frame)
    requires !KnownType(t) && Fits(f.msg)
    ensures var bare, good := BareFrame(t, session), FrameBytes(f);
            && good != []
            && (var together := ReadAll(false, START, [bare + good]);
                !together.ok && together.r.delivered == [])
            && (var apart := ReadAll(false, START, [bare + good[..1], good[1..]]);
                apart.ok && apart.r.delivered == [f.msg])
  {
    var bare, good := BareFrame(t, session), FrameBytes(f);
    FrameParts(f);
    hide BareFrame, FrameBytes, Fits, ReadAll;
    Together(bare, good, t, session, f);
    Apart(bare, good, t, session, f);
  }

  lemma Together(bare: Bytes, good: Bytes, t: Byte, session: U32, f: Frame)
    requires !KnownType(t) && Fits(f.msg) && bare == BareFrame(t, session) && good == FrameBytes(f)
    ensures var got := ReadAll(false, START, [bare + good]); !got.ok && got.r.delivered == []
  {
    FrameParts(f);
    var all := Arrive(START, bare + good);
    assert all.inbuf == bare + good;
    StepBare(all, t, session, good);
    var r := Note(START.(inbuf := good), session);
    assert good == good + [];
    StepFrame(false, r, f, []);
    StepFlag(false, r);
    hide ReadRound, BareFrame, FrameBytes, Fits;
    assert r.delivered == [] && Take(false, r, f).delivered == [f.msg];
    assert Rounds(false, false, r, false) == Result(false, ReadRound(false, r, false).r);
  }

  // One byte behind the bare frame: it is ignored and the byte is kept.
  lemma BareThenByte(bare: Bytes, byte: Bytes, t: Byte, session: U32)
    requires !KnownType(t) && |byte| == 1 && bare == BareFrame(t, session)
    ensures Read(false, Arrive(START, bare + byte)) == Result(true, Note(START.(inbuf := byte), session))
  {
    hide BareFrame, ReadRound;
    var all := Arrive(START, bare + byte);
    assert all.inbuf == bare + byte;
    StepBare(all, t, session, byte);
    ShortWaits(Note(START.(inbuf := byte), session));
  }

  lemma WholeAlone(r: Reader, f: Frame)
    requires Fits(f.msg) && r.inbuf == FrameBytes(f)
    ensures Read(false, r) == Result(true, Take(false, r, f).(inbuf := []))
  {
    hide FrameBytes, Fits, ReadRound;
    assert r.inbuf == FrameBytes(f) + [];
    StepFrame(false, r, f, []);
    var r' := Take(false, r, f).(inbuf := []);
    StepWaits(false, r');
    assert Rounds(false, false, r', true) == Result(true, r');
  }

  lemma Apart(bare: Bytes, good: Bytes, t: Byte, session: U32, f: Frame)
    requires !KnownType(t) && Fits(f.msg) && bare == BareFrame(t, session) && good == FrameBytes(f) && good != []
    ensures var got := ReadAll(false, START, [bare + good[..1], good[1..]]); got.ok && got.r.delivered == [f.msg]
  {
    hide BareFrame, FrameBytes, Fits, ReadRound, Rounds, ReadAll;
    BareThenByte(bare, good[..1], t, session);
    var r := Arrive(Note(START.(inbuf := good[..1]), session), good[1..]);
    assert good[..1] + good[1..] == good;
    WholeAlone(r, f);
    TwoArrivals(false, START, bare + good[..1], good[1..]);
  }

  lemma ShortWaits(r: Reader)
    requires |r.inbuf| <= HEADER_LEN
    ensures Rounds(false, false, r, false) == Result(true, r)
  {
  }

  /** For every run of sends of fitting messages, every socket behaviour and every way in which any
      part of the wire bytes arrives: the reader does not fail, and it has delivered, equal and in
      order, the first k of the messages that were not dropped; once the queue has drained and
      everything has arrived, all of them. The premise on offsets always holds when they accumulate. */
  lemma Delivery(rule: OffsetRule, script: seq<Outcome>, sends: seq<Send>, idle: bool, arrivals: seq<Bytes>)
    returns (k: nat)
    requires forall s :: s in sends ==> Fits(s.msg)
    requires rule == Accumulating || RunResumesWhole(script, Records(sends))
    requires Join(arrivals) <= RunSends(rule, script, Records(sends)).q.wire
    ensures var run := RunSends(rule, script, Records(sends));
            var kept := KeptFrames(sends, run.kept);
            var got := ReadAll(idle, START, arrivals);
            && got.ok && k <= |kept|
            && got.r.(inbuf := []) == TakeAll(idle, START, kept[..k])
            && got.r.delivered == Visible(idle, kept[..k])
            && (run.q.buffers == [] && Join(arrivals) == run.q.wire ==> k == |kept|)
  {
    var records := Records(sends);
    var run := RunSends(rule, script, records);
    var kept := KeptFrames(sends, run.kept);
    RecordsNonempty(sends);
    StreamIntegrity(rule, script, records);
    KeptJoined(sends, run.kept);
    KeptFit(sends, run.kept);
    hide RunSends, Records, ReadAll, TakeAll, Fits, Valid, RunResumesWhole;
    assert Stream(run.q) == JoinFrames(kept);
    assert run.q.wire <= JoinFrames(kept);
    if run.q.buffers == [] { assert run.q.wire + [] == run.q.wire; }
    k := ReadStream(idle, kept, arrivals);
    TakeAllDelivers(idle, START, kept[..k]);
    assert [] + Visible(idle, kept[..k]) == Visible(idle, kept[..k]);
  }

  // ---------- session indexes and gaps ----------

  // The indexes missing according to the logged gaps.
  function Missing(gaps: seq<U32>): int {
    if gaps == [] then 0 else Missing(gaps[..|gaps| - 1]) + ((gaps[|gaps| - 1] as int) - 1)
  }

  // Sends dropped among the first n.
  function Dropped(kept: seq<bool>, n: nat): nat
    requires n <= |kept|
  {
    if n == 0 then 0 else Dropped(kept, n - 1) + if kept[n - 1] then 0 else 1
  }

  ghost predicate Increasing(fs: seq<Frame>) {
    && (forall i :: 0 <= i < |fs| ==> fs[i].session > 0)
    && (forall i, j :: 0 <= i < j < |fs| ==> fs[i].session < fs[j].session)
  }

  // The send that a kept frame came from.
  lemma {:induction false} KeptPosition(sends: seq<Send>, kept: seq<bool>, j: nat) returns (p: nat)
    requires |kept| <= |sends| && j < |KeptFrames(sends, kept)|
    ensures p < |kept| && kept[p] && KeptFrames(sends, kept)[j] == FrameOf(sends, p)
    ensures p == j + Dropped(kept, p)
  {
    var n := |kept| - 1;
    if j < |KeptFrames(sends, kept[..n])| {
      p := KeptPosition(sends, kept[..n], j);
      DroppedPrefix(kept, n, p);
    } else {
      p := n;
      KeptCount(sends, kept[..n]);
      DroppedPrefix(kept, n, n);
    }
  }

  lemma {:induction false} DroppedPrefix(kept: seq<bool>, n: nat, p: nat)
    requires p <= n <= |kept|
    ensures Dropped(kept[..n], p) == Dropped(kept, p)
  {
    if p > 0 { DroppedPrefix(kept, n, p - 1); }
  }

  lemma {:induction false} KeptCount(sends: seq<Send>, kept: seq<bool>)
    requires |kept| <= |sends|
    ensures |KeptFrames(sends, kept)| + Dropped(kept, |kept|) == |kept|
  {
    if kept != [] {
      var n := |kept| - 1;
      KeptCount(sends, kept[..n]);
      DroppedPrefix(kept, n, n);
    }
  }

  lemma IncreasingLast(fs: seq<Frame>, f: Frame)
    requires Increasing(fs) && f.session > 0 && forall i :: 0 <= i < |fs| ==> fs[i].session < f.session
    ensures Increasing(fs + [f])
  {
  }

  lemma {:induction false} KeptIncreasing(sends: seq<Send>, kept: seq<bool>)
    requires |kept| <= |sends| < 0x1_0000_0000
    ensures Increasing(KeptFrames(sends, kept))
    ensures forall f :: f in KeptFrames(sends, kept) ==> f.session <= |kept|
  {
    if kept != [] {
      var n := |kept| - 1;
      KeptIncreasing(sends, kept[..n]);
      var fs, f := KeptFrames(sends, kept[..n]), FrameOf(sends, n);
      assert f.session == n + 1;
      assert forall i :: 0 <= i < |fs| ==> fs[i] in fs;
      hide FrameOf, Increasing;
      if kept[n] {
        IncreasingLast(fs, f);
      } else {
        assert KeptFrames(sends, kept) == fs;
      }
    }
  }

  lemma {:induction false} GapsAdd(idle: bool, r: Reader, fs: seq<Frame>)
    requires Increasing(fs) && r.last > 0 && (fs != [] ==> r.last < fs[0].session)
    ensures var r' := TakeAll(idle, r, fs);
            && r'.last == (if fs == [] then r.last else fs[|fs| - 1].session)
            && Missing(r'.gaps) == Missing(r.gaps) + (r'.last - r.last) - |fs|
    decreases |fs|
  {
    if fs != [] {
      var r1 := Take(idle, r, fs[0]);
      var delta := IndexDelta(fs[0].session, r.last);
      assert delta == fs[0].session - r.last;
      assert r1.gaps == if delta != 1 then r.gaps + [delta] else r.gaps;
      assert (r.gaps + [delta])[..|r.gaps|] == r.gaps;
      GapsAdd(idle, r1, fs[1..]);
    }
  }

  lemma GapsFromStart(idle: bool, fs: seq<Frame>)
    requires Increasing(fs) && fs != []
    ensures Missing(TakeAll(idle, START, fs).gaps) == fs[|fs| - 1].session - fs[0].session - (|fs| - 1)
  {
    var r := Take(idle, START, fs[0]);
    assert r.gaps == [] && r.last == fs[0].session;
    GapsAdd(idle, r, fs[1..]);
  }

  /** With fewer than 2^32 sends, the received session indexes strictly increase, and the indexes the
      reader reports missing are exactly the sends dropped between the first and last received. */
  lemma GapAccounting(idle: bool, sends: seq<Send>, kept: seq<bool>, k: nat) returns (first: nat, last: nat)
    requires |kept| <= |sends| < 0x1_0000_0000
    requires 1 <= k <= |KeptFrames(sends, kept)|
    ensures first <= last < |kept|
    ensures var fs := KeptFrames(sends, kept)[..k];
            && Increasing(fs) && fs[0] == FrameOf(sends, first) && fs[k - 1] == FrameOf(sends, last)
            && Missing(TakeAll(idle, START, fs).gaps) == Dropped(kept, last) - Dropped(kept, first)
  {
    hide TakeAll, Missing, Dropped, KeptFrames;
    var fs := KeptFrames(sends, kept)[..k];
    KeptIncreasing(sends, kept);
    first := KeptPosition(sends, kept, 0);
    last := KeptPosition(sends, kept, k - 1);
    GapsFromStart(idle, fs);
  }

  // ---------- the writing side of a connection ----------

  // A connection with the history of its sends; the history is what the theorems above speak of. It
  // ends with the send that closes the connection.
  class TcpSender {
    const queue: TcpSocketQueue
    var writerSessionIndex: U32
    var open: bool
    ghost const script: seq<Outcome>
    ghost var sends: seq<Send>
    ghost var kept: seq<bool>

    ghost predicate Inv()
      reads this, queue, queue.socket
    {
      && |kept| <= |sends|
      && Valid(queue.View())
      && (open ==> queue.sessionIndex == |sends| % 0x1_0000_0000
                   && RunSends(queue.rule, script, Records(sends)) == Run(true, kept, queue.View()))
      && (!open ==> !RunSends(queue.rule, script, Records(sends)).ok
                    && RunSends(queue.rule, script, Records(sends)).kept == kept)
    }

    constructor (rule: OffsetRule, script: seq<Outcome>)
      ensures Inv() && open && sends == [] && this.script == script && queue.rule == rule
      ensures fresh(queue) && fresh(queue.socket)
    {
      var socket := new Socket(script);
      queue := new TcpSocketQueue(rule, socket);
      writerSessionIndex := 0;
      open := true;
      this.script := script;
      sends := [];
      kept := [];
      new;
      assert Records([]) == [];
    }

    // Encoding into a new archive and handing its bytes over, without a look at its validity.
    method EncodeAndQueue(m: Msg, session: U32, stamp: U64) returns (ok: bool, ghost isKept: bool)
      requires Valid(queue.View())
      modifies queue`buffers, queue`throttleOn, queue`forgotten, queue.socket
      ensures SendResult(ok, isKept, queue.View()) ==
              SendBuffer(queue.rule, old(queue.View()), FrameBytes(Frame(m, session, stamp)))
      ensures Valid(queue.View())
    {
      hide Record, SendBuffer, Valid;
      ghost var before := queue.View();
      var ar := Encode(m, session, stamp);
      var data := ar.buff[..ar.len];
      assert data == FrameBytes(Frame(m, session, stamp));
      RecordLength(Frame(m, session, stamp));
      assert queue.View() == before;
      ok, isKept := queue.Send(data);
    }

    // The next index, the record and the queue; a failure closes the connection. On a closed one the
    // record is still handed to the queue, but belongs to no run.
    method SendMessage(m: Msg, stamp: U64) returns (ok: bool)
      requires Inv()
      modifies this`writerSessionIndex, this`open, this`sends, this`kept
      modifies queue`sessionIndex, queue`buffers, queue`throttleOn, queue`forgotten, queue.socket
      ensures Inv() && open == (old(open) && ok)
      ensures writerSessionIndex == queue.sessionIndex == (old(queue.sessionIndex) + 1) % 0x1_0000_0000
      ensures exists isKept :: SendResult(ok, isKept, queue.View()) ==
                SendBuffer(queue.rule, old(queue.View()), FrameBytes(Frame(m, writerSessionIndex, stamp)))
      ensures old(open) ==> sends == old(sends) + [Send(m, stamp)] &&
                            writerSessionIndex == FrameOf(sends, |sends| - 1).session
      ensures old(open) && ok ==> |kept| == |old(kept)| + 1 && kept[..|old(kept)|] == old(kept)
      ensures !old(open) ==> sends == old(sends)
      ensures !old(open) || !ok ==> kept == old(kept)
    {
      hide FrameBytes, SendBuffer, Valid, RunSends, Records;
      ghost var before := queue.View();
      var session := queue.NextSessionIndex();
      writerSessionIndex := session;
      assert queue.View() == before;
      ghost var isKept;
      ok, isKept := EncodeAndQueue(m, session, stamp);
      assert SendResult(ok, isKept, queue.View()) ==
             SendBuffer(queue.rule, before, FrameBytes(Frame(m, writerSessionIndex, stamp)));
      if open {
        Settle(m, stamp, ok, isKept, before);
      }
    }

    // The send enters the history, and a failed one closes the connection.
    method Settle(m: Msg, stamp: U64, ok: bool, ghost isKept: bool, ghost before: Queue)
      requires open && |kept| <= |sends| && Valid(queue.View())
      requires RunSends(queue.rule, script, Records(sends)) == Run(true, kept, before)
      requires queue.sessionIndex == (|sends| + 1) % 0x1_0000_0000
      requires SendResult(ok, isKept, queue.View()) ==
               SendBuffer(queue.rule, before, FrameBytes(Frame(m, queue.sessionIndex, stamp)))
      modifies this`open, this`sends, this`kept
      ensures Inv() && open == ok
      ensures sends == old(sends) + [Send(m, stamp)] && kept == if ok then old(kept) + [isKept] else old(kept)
    {
      hide FrameBytes, SendBuffer, Valid, RunSends, Records;
      sends := sends + [Send(m, stamp)];
      assert sends[..|sends| - 1] == old(sends);
      ExtendRun(queue.rule, script, sends);
      if ok {
        kept := kept + [isKept];
      } else {
        open := false;
      }
    }
  }

  // Header and time stamp are always written.
  lemma RecordLength(f: Frame)
    ensures FrameBytes(f) != []
  {
    WriteGrows(Out(Front(HeaderFor(f.msg, f.session), f.stamp), true), PutMsg(f.msg));
  }

  lemma ExtendRun(rule: OffsetRule, script: seq<Outcome>, sends: seq<Send>)
    requires sends != []
    requires RunSends(rule, script, Records(sends[..|sends| - 1])).ok
    ensures var before := RunSends(rule, script, Records(sends[..|sends| - 1]));
            var s := SendBuffer(rule, before.q, FrameBytes(FrameOf(sends, |sends| - 1)));
            RunSends(rule, script, Records(sends)) ==
            if s.ok then Run(true, before.kept + [s.kept], s.q) else Run(false, before.kept, s.q)
  {
    hide FrameBytes, SendBuffer;
    var n := |sends| - 1;
    assert Records(sends)[..n] == Records(sends[..n]);
  }
}
