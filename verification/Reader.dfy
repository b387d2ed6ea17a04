/**
 The incremental reader of a TCP connection: it takes whole frames off a byte stream that arrives
 in arbitrary pieces, notes gaps in the session index and hands decoded messages on.
 */
module Readers {
  import opened Words
  import opened Messages
  import opened Codec
  import opened Archives

  // inbuf is the event buffer; last is the session index of the last frame; delivered are the
  // messages handed to the callbacks; gaps are the logged index differences other than 1.
  datatype Reader = Reader(inbuf: Bytes, last: U32, delivered: seq<Msg>, gaps: seq<U32>)

  // One round of the loop. valid is the flag of the archive that one call reuses for all its frames.
  datatype Round = Wait | Fail(r: Reader) | Next(r: Reader, valid: bool)

  // session_idx - reader_session_index() on uint32_t
  function IndexDelta(session: U32, last: U32): U32 {
    (session - last) % 0x1_0000_0000
  }

  function Note(r: Reader, session: U32): Reader {
    var delta := IndexDelta(session, r.last);
    r.(last := session, gaps := if r.last != 0 && delta != 1 then r.gaps + [delta] else r.gaps)
  }

  // The type is unknown, or it is a delta and the configuration idles on deltas.
  predicate Ignored(idle: bool, t: Byte) {
    !KnownType(t) || (idle && t == MD_DELTA)
  }

  function Handle(idle: bool, r: Reader, valid: bool, t: Byte, payload: Bytes): Round {
    var stamp := GetU64(payload);
    if Ignored(idle, t) then Next(r, valid && stamp.Got?)
    else if !valid || stamp.Bad? then Fail(r)
    else match GetMsg(t, stamp.rest)
      case Bad => Fail(r)
      case Got(m, _) => Next(r.(delivered := r.delivered + [m]), true)
  }

  function ReadRound(idle: bool, r: Reader, valid: bool): (s: Round)
    ensures s.Next? ==> |s.r.inbuf| < |r.inbuf|
  {
    if |r.inbuf| <= HEADER_LEN then Wait else
    var h := ReadHeader(r.inbuf[..HEADER_LEN]);
    if h.pfix != TAG_SOH then Fail(r)
    else if |r.inbuf| < HEADER_LEN + h.len then Wait
    else
      var r' := Note(r.(inbuf := r.inbuf[HEADER_LEN..]), h.session);
      if h.len > ARCHIVE_BUFF_CAPACITY then Fail(r')
      else Handle(idle, r'.(inbuf := r'.inbuf[h.len..]), valid, h.mtype, r'.inbuf[..h.len])
  }

  datatype Result = Result(ok: bool, r: Reader)

  // The rounds of one call; with reset, the archive would be reset before every frame.
  function Rounds(idle: bool, reset: bool, r: Reader, valid: bool): Result
    decreases |r.inbuf|
  {
    match ReadRound(idle, r, reset || valid)
    case Wait => Result(true, r)
    case Fail(r') => Result(false, r')
    case Next(r', v) => Rounds(idle, reset, r', v)
  }

  // One call of read_connection_buffer.
  function Read(idle: bool, r: Reader): Result {
    Rounds(idle, false, r, true)
  }

  function Arrive(r: Reader, more: Bytes): Reader {
    r.(inbuf := r.inbuf + more)
  }

  // One call for each arrival, until one fails and the connection is closed.
  function ReadAll(idle: bool, r: Reader, arrivals: seq<Bytes>): Result
    decreases |arrivals|
  {
    if arrivals == [] then Result(true, r) else
    var first := Read(idle, Arrive(r, arrivals[0]));
    if first.ok then ReadAll(idle, first.r, arrivals[1..]) else first
  }

  function Join(arrivals: seq<Bytes>): Bytes {
    if arrivals == [] then [] else arrivals[0] + Join(arrivals[1..])
  }

  // Nothing an observer sees differs: deliveries, gaps, last index and outcome, and while the
  // connection is up the bytes still waiting.
  predicate Same(a: Result, b: Result) {
    && a.ok == b.ok
    && a.r.last == b.r.last && a.r.delivered == b.r.delivered && a.r.gaps == b.r.gaps
    && (a.ok ==> a.r.inbuf == b.r.inbuf)
  }

  // A frame of fewer than 8 bytes that is ignored leaves the archive invalid; a frame that would be
  // delivered after it is refused, but only when both are read by the same call.
  predicate DeliversAfterShort(idle: bool, r: Reader, seen: bool)
    decreases |r.inbuf|
  {
    match ReadRound(idle, r, true)
    case Wait => false
    case Fail(_) => false
    case Next(r', v) => (seen && r'.delivered != r.delivered) || DeliversAfterShort(idle, r', seen || !v)
  }

  // ---------- more bytes behind a frame change nothing about it ----------

  lemma HandleAppend(idle: bool, r: Reader, valid: bool, t: Byte, payload: Bytes, more: Bytes)
    ensures match Handle(idle, r, valid, t, payload)
      case Wait => false
      case Fail(r') => Handle(idle, Arrive(r, more), valid, t, payload) == Fail(Arrive(r', more))
      case Next(r', v) => Handle(idle, Arrive(r, more), valid, t, payload) == Next(Arrive(r', more), v)
  {
    hide GetU64, GetMsg;
  }

  lemma StepAppend(idle: bool, r: Reader, valid: bool, more: Bytes)
    ensures match ReadRound(idle, r, valid)
      case Wait => true
      case Fail(r') => ReadRound(idle, Arrive(r, more), valid) == Fail(Arrive(r', more))
      case Next(r', v) => ReadRound(idle, Arrive(r, more), valid) == Next(Arrive(r', more), v)
  {
    hide ReadHeader, Handle;
    var a := r.inbuf + more;
    if |r.inbuf| > HEADER_LEN {
      assert a[..HEADER_LEN] == r.inbuf[..HEADER_LEN];
      var h := ReadHeader(r.inbuf[..HEADER_LEN]);
      var rest := r.inbuf[HEADER_LEN..];
      assert a[HEADER_LEN..] == rest + more;
      if |r.inbuf| >= HEADER_LEN + h.len {
        assert (rest + more)[..h.len] == rest[..h.len];
        assert (rest + more)[h.len..] == rest[h.len..] + more;
        var r' := Note(r.(inbuf := rest), h.session);
        HandleAppend(idle, r'.(inbuf := rest[h.len..]), valid, h.mtype, rest[..h.len], more);
      }
    }
  }

  lemma {:induction false} RoundsAppend(idle: bool, r: Reader, more: Bytes)
    ensures var a, b := Rounds(idle, true, r, true), Rounds(idle, true, Arrive(r, more), true);
            if a.ok then b == Rounds(idle, true, Arrive(a.r, more), true) else b == Result(false, Arrive(a.r, more))
    decreases |r.inbuf|
  {
    StepAppend(idle, r, true, more);
    match ReadRound(idle, r, true)
    case Wait =>
    case Fail(_) =>
    case Next(r', v) => RoundsAppend(idle, r', more);
  }

  lemma {:induction false} RoundsRest(idle: bool, reset: bool, r: Reader, valid: bool)
    requires Rounds(idle, reset, r, valid).ok
    ensures ReadRound(idle, Rounds(idle, reset, r, valid).r, true) == Wait
    decreases |r.inbuf|
  {
    match ReadRound(idle, r, reset || valid)
    case Wait =>
    case Next(r', v) => RoundsRest(idle, reset, r', v);
  }

  lemma {:induction false} ShortExtends(idle: bool, r: Reader, seen: bool, more: Bytes)
    requires DeliversAfterShort(idle, r, seen)
    ensures DeliversAfterShort(idle, Arrive(r, more), seen)
    decreases |r.inbuf|
  {
    StepAppend(idle, r, true, more);
    match ReadRound(idle, r, true)
    case Next(r', v) =>
      if !(seen && r'.delivered != r.delivered) {
        ShortExtends(idle, r', seen || !v, more);
      }
  }

  lemma {:induction false} ShortMonotone(idle: bool, r: Reader, seen: bool)
    requires DeliversAfterShort(idle, r, false)
    ensures DeliversAfterShort(idle, r, seen)
    decreases |r.inbuf|
  {
    match ReadRound(idle, r, true)
    case Next(r', v) =>
      if v && seen { ShortMonotone(idle, r', true); }
  }

  lemma {:induction false} ShortContinues(idle: bool, r: Reader, seen: bool, more: Bytes)
    requires Rounds(idle, true, r, true).ok
    requires DeliversAfterShort(idle, Arrive(Rounds(idle, true, r, true).r, more), false)
    ensures DeliversAfterShort(idle, Arrive(r, more), seen)
    decreases |r.inbuf|
  {
    StepAppend(idle, r, true, more);
    match ReadRound(idle, r, true)
    case Wait => ShortMonotone(idle, Arrive(r, more), seen);
    case Next(r', v) =>
      if !(seen && r'.delivered != r.delivered) {
        ShortContinues(idle, r', seen || !v, more);
      }
  }

  // ---------- the flag that is not reset ----------

  lemma StepFlag(idle: bool, r: Reader)
    ensures match ReadRound(idle, r, true)
      case Wait => ReadRound(idle, r, false) == Wait
      case Fail(r') => ReadRound(idle, r, false) == Fail(r')
      case Next(r', v) =>
        if r'.delivered == r.delivered then ReadRound(idle, r, false) == Next(r', false)
        else v && r.delivered < r'.delivered && ReadRound(idle, r, false).Fail? && ReadRound(idle, r, false).r.delivered == r.delivered
  {
  }

  /** Reusing the archive makes no difference unless something is delivered after a short frame. */
  lemma {:induction false} StickyAgrees(idle: bool, r: Reader, valid: bool)
    requires !DeliversAfterShort(idle, r, !valid)
    ensures Rounds(idle, false, r, valid) == Rounds(idle, true, r, true)
    decreases |r.inbuf|
  {
    StepFlag(idle, r);
    match ReadRound(idle, r, true)
    case Wait =>
    case Fail(_) =>
    case Next(r', v) => StickyAgrees(idle, r', valid && v);
  }

  lemma {:induction false} DeliveredGrows(idle: bool, reset: bool, r: Reader, valid: bool)
    ensures r.delivered <= Rounds(idle, reset, r, valid).r.delivered
    decreases |r.inbuf|
  {
    match ReadRound(idle, r, reset || valid)
    case Wait =>
    case Fail(_) =>
    case Next(r', v) => DeliveredGrows(idle, reset, r', v);
  }

  function Cut(r: Reader, k: nat): Reader
    requires k <= |r.inbuf|
  {
    r.(inbuf := r.inbuf[..k])
  }

  lemma StepPrefix(idle: bool, r: Reader, k: nat)
    requires ReadRound(idle, r, true).Next?
    requires |r.inbuf| - |ReadRound(idle, r, true).r.inbuf| <= k <= |r.inbuf| && HEADER_LEN < k
    ensures var s := ReadRound(idle, r, true);
            ReadRound(idle, Cut(r, k), true) == Next(Cut(s.r, k - (|r.inbuf| - |s.r.inbuf|)), s.valid)
  {
    var h := ReadHeader(r.inbuf[..HEADER_LEN]);
    var c := r.inbuf[..k];
    assert c[..HEADER_LEN] == r.inbuf[..HEADER_LEN];
    assert c[HEADER_LEN..][..h.len] == r.inbuf[HEADER_LEN..][..h.len];
    assert c[HEADER_LEN..][h.len..] == r.inbuf[HEADER_LEN..][h.len..][..k - HEADER_LEN - h.len];
  }

  lemma StepWaits(idle: bool, r: Reader)
    requires |r.inbuf| <= HEADER_LEN
    ensures ReadRound(idle, r, true) == Wait
  {
  }

  // Where to cut: one byte into the first frame that is delivered after a short one.
  lemma {:induction false} CutPoint(idle: bool, r: Reader, seen: bool) returns (k: nat)
    requires DeliversAfterShort(idle, r, seen)
    ensures 1 <= k <= |r.inbuf|
    ensures var front := Rounds(idle, true, Cut(r, k), true);
            && front.ok && !DeliversAfterShort(idle, Cut(r, k), seen)
            && Rounds(idle, false, r, !seen).r.delivered == front.r.delivered
            && var next := ReadRound(idle, Arrive(front.r, r.inbuf[k..]), true);
               next.Next? && front.r.delivered < next.r.delivered
    decreases |r.inbuf|
  {
    hide ReadRound;
    StepFlag(idle, r);
    var s := ReadRound(idle, r, true);
    if seen && s.r.delivered != r.delivered {
      k := 1;
      StepTakes(idle, r);
      StepWaits(idle, Cut(r, 1));
      assert Cut(r, 1).inbuf + r.inbuf[1..] == r.inbuf;
    } else {
      var k' := CutPoint(idle, s.r, seen || !s.valid);
      var n := |r.inbuf| - |s.r.inbuf|;
      k := n + k';
      StepTakes(idle, r);
      StepPrefix(idle, r, k);
      assert r.inbuf[k..] == s.r.inbuf[k'..];
    }
  }

  // A round that goes on has taken a header and its frame.
  lemma StepTakes(idle: bool, r: Reader)
    requires ReadRound(idle, r, true).Next?
    ensures var r' := ReadRound(idle, r, true).r;
            |r'.inbuf| + HEADER_LEN <= |r.inbuf| && r'.inbuf == r.inbuf[|r.inbuf| - |r'.inbuf|..]
  {
    hide ReadHeader, Handle;
    var h := ReadHeader(r.inbuf[..HEADER_LEN]);
    var rest := r.inbuf[HEADER_LEN..];
    var r' := Note(r.(inbuf := rest), h.session).(inbuf := rest[h.len..]);
    HandleKeepsBuffer(idle, r', true, h.mtype, rest[..h.len]);
    assert rest[h.len..] == r.inbuf[HEADER_LEN + h.len..];
  }

  // ---------- chunk independence ----------

  lemma {:induction false} AnyCut(idle: bool, r: Reader, arrivals: seq<Bytes>)
    requires ReadRound(idle, r, true) == Wait
    requires !DeliversAfterShort(idle, Arrive(r, Join(arrivals)), false)
    ensures Same(ReadAll(idle, r, arrivals), Rounds(idle, true, Arrive(r, Join(arrivals)), true))
    decreases |arrivals|
  {
    if arrivals == [] {
      assert r.inbuf + [] == r.inbuf;
    } else {
      var later := Join(arrivals[1..]);
      var r0 := Arrive(r, arrivals[0]);
      assert Arrive(r, Join(arrivals)) == Arrive(r0, later) by {
        assert (r.inbuf + arrivals[0]) + later == r.inbuf + (arrivals[0] + later);
      }
      if DeliversAfterShort(idle, r0, false) {
        ShortExtends(idle, r0, false, later);
      }
      StickyAgrees(idle, r0, true);
      RoundsAppend(idle, r0, later);
      var first := Read(idle, r0);
      if first.ok {
        RoundsRest(idle, true, r0, true);
        if DeliversAfterShort(idle, Arrive(first.r, later), false) {
          ShortContinues(idle, r0, false, later);
        }
        AnyCut(idle, first.r, arrivals[1..]);
      }
    }
  }

  lemma TwoArrivals(idle: bool, r: Reader, a: Bytes, b: Bytes)
    ensures var first := Read(idle, Arrive(r, a));
            ReadAll(idle, r, [a, b]) == if first.ok then Read(idle, Arrive(first.r, b)) else first
  {
    hide Rounds;
    var first := Read(idle, Arrive(r, a));
    assert [a, b][1..] == [b];
    var second := Read(idle, Arrive(first.r, b));
    assert ReadAll(idle, second.r, [b][1..]) == Result(true, second.r);
    assert ReadAll(idle, first.r, [b]) == second;
  }

  lemma SecondDelivers(idle: bool, r: Reader)
    requires ReadRound(idle, r, true).Next? && r.delivered < ReadRound(idle, r, true).r.delivered
    ensures |r.delivered| < |Read(idle, r).r.delivered|
  {
    var next := ReadRound(idle, r, true);
    DeliveredGrows(idle, false, next.r, next.valid);
  }

  lemma CutsDiffer(idle: bool, r: Reader, stream: Bytes) returns (a: Bytes, b: Bytes)
    requires r.inbuf == [] && DeliversAfterShort(idle, Arrive(r, stream), false)
    ensures Join([a, b]) == stream
    ensures |Read(idle, Arrive(r, stream)).r.delivered| < |ReadAll(idle, r, [a, b]).r.delivered|
  {
    hide ReadRound, DeliversAfterShort, Rounds, ReadAll;
    var whole := Arrive(r, stream);
    assert whole.inbuf == stream;
    var k := CutPoint(idle, whole, false);
    a, b := stream[..k], stream[k..];
    assert Join([a, b]) == stream by {
      assert [a, b][1..] == [b] && [b][1..] == [];
      assert Join([b]) == b + [];
    }
    assert Arrive(r, a) == Cut(whole, k);
    StickyAgrees(idle, Cut(whole, k), true);
    var front := Read(idle, Arrive(r, a));
    SecondDelivers(idle, Arrive(front.r, b));
    TwoArrivals(idle, r, a, b);
  }

  /** Whatever the stream and however it is cut into arrivals, the outcome is that of reading it in one
      call, if and only if no frame is delivered after an ignored frame shorter than its time stamp. */
  lemma ChunkIndependence(idle: bool, r: Reader, stream: Bytes)
    requires r.inbuf == []
    ensures (forall arrivals: seq<Bytes> :: Join(arrivals) == stream ==>
               Same(ReadAll(idle, r, arrivals), Read(idle, Arrive(r, stream))))
            <==> !DeliversAfterShort(idle, Arrive(r, stream), false)
  {
    if DeliversAfterShort(idle, Arrive(r, stream), false) {
      var a, b := CutsDiffer(idle, r, stream);
    } else {
      StickyAgrees(idle, Arrive(r, stream), true);
      forall arrivals: seq<Bytes> | Join(arrivals) == stream
        ensures Same(ReadAll(idle, r, arrivals), Read(idle, Arrive(r, stream)))
      {
        AnyCut(idle, r, arrivals);
      }
    }
  }

  // Up to a wrong tag or the first frame that is not there in full, every frame announces room for
  // its time stamp. Only headers are looked at.
  predicate LongFrames(stream: Bytes)
    decreases |stream|
  {
    if |stream| <= HEADER_LEN then true else
    var h := ReadHeader(stream[..HEADER_LEN]);
    if h.pfix != TAG_SOH || |stream| < HEADER_LEN + h.len then true
    else h.len >= WIRE_TSTAMP_LEN && LongFrames(stream[HEADER_LEN..][h.len..])
  }

  lemma LongStep(idle: bool, r: Reader)
    requires LongFrames(r.inbuf)
    ensures match ReadRound(idle, r, true)
      case Wait => true
      case Fail(_) => true
      case Next(r', v) => v && LongFrames(r'.inbuf)
  {
    hide ReadHeader;
    if |r.inbuf| > HEADER_LEN {
      var h := ReadHeader(r.inbuf[..HEADER_LEN]);
      var rest := r.inbuf[HEADER_LEN..];
      if |r.inbuf| >= HEADER_LEN + h.len && h.pfix == TAG_SOH && h.len <= ARCHIVE_BUFF_CAPACITY {
        var r' := Note(r.(inbuf := rest), h.session).(inbuf := rest[h.len..]);
        LongHandle(idle, r', h.mtype, rest[..h.len]);
        HandleKeepsBuffer(idle, r', true, h.mtype, rest[..h.len]);
        hide Handle;
      }
    }
  }

  lemma LongHandle(idle: bool, r: Reader, t: Byte, payload: Bytes)
    requires |payload| >= WIRE_TSTAMP_LEN
    ensures Handle(idle, r, true, t, payload).Next? ==> Handle(idle, r, true, t, payload).valid
  {
    hide GetMsg;
  }

  lemma {:induction false} LongFramesDeliver(idle: bool, r: Reader)
    requires LongFrames(r.inbuf)
    ensures !DeliversAfterShort(idle, r, false)
    decreases |r.inbuf|
  {
    LongStep(idle, r);
    hide LongFrames;
    match ReadRound(idle, r, true)
    case Wait =>
    case Fail(_) =>
    case Next(r', _) => LongFramesDeliver(idle, r');
  }

  /** A stream whose frames all announce at least the eight bytes of the time stamp, as those of fitting
      messages do, has one outcome however it is cut. */
  lemma LongFramesAnyCut(idle: bool, r: Reader, stream: Bytes, arrivals: seq<Bytes>)
    requires r.inbuf == [] && LongFrames(stream) && Join(arrivals) == stream
    ensures Same(ReadAll(idle, r, arrivals), Read(idle, Arrive(r, stream)))
  {
    assert Arrive(r, stream).inbuf == stream;
    LongFramesDeliver(idle, Arrive(r, stream));
    ChunkIndependence(idle, r, stream);
    hide Same, ReadAll, DeliversAfterShort, Rounds;
  }

  // ---------- the reading side of a connection ----------

  class TcpReader {
    const idle: bool
    var inbuf: Bytes
    var last: U32
    var delivered: seq<Msg>
    var gaps: seq<U32>

    function View(): Reader
      reads this
    {
      Reader(inbuf, last, delivered, gaps)
    }

    constructor (idle: bool)
      ensures this.idle == idle && View() == Reader([], 0, [], [])
    {
      this.idle := idle;
      inbuf, last, delivered, gaps := [], 0, [], [];
    }

    // The time stamp and the dispatch switch, on an archive that holds the frame.
    method HandleFrame(ar: Archive, t: Byte) returns (ok: bool)
      requires ar.Inv()
      modifies this`delivered, ar`read, ar`valid
      ensures ar.Inv()
      ensures match Handle(idle, old(View()), old(ar.valid), t, old(ar.Unread()))
        case Wait => false
        case Fail(r) => !ok && View() == r
        case Next(r, v) => ok && View() == r && ar.valid == v
    {
      hide GetU64, GetMsg;
      var stamp := ar.LoadU64();
      var skip := idle && t == MD_DELTA;
      if !skip {
        if KnownType(t) {
          var m := ar.LoadMsg(t);
          if !ar.valid {
            return false;
          }
          delivered := delivered + [m];
        }
      }
      return true;
    }

    static method ParseHeader(hdr: Bytes) returns (h: Header)
      requires |hdr| == HEADER_LEN
      ensures h == ReadHeader(hdr)
    {
      Network64(0, hdr);
      hide Hton64, Word64, Unwire64;
      h := HeaderOf(Hton64(Word64(hdr)));
    }

    method ReadConnectionBuffer() returns (ok: bool)
      modifies this
      ensures Result(ok, View()) == Read(idle, old(View()))
    {
      var buffLen := |inbuf|;
      var ar := new Archive();
      ghost var start := View();
      while buffLen > HEADER_LEN
        invariant fresh(ar) && fresh(ar.buff) && ar.Inv() && ar.start == 0 && buffLen == |inbuf|
        invariant Rounds(idle, false, View(), ar.valid) == Read(idle, start)
        decreases buffLen
      {
        ghost var before, valid := View(), ar.valid;
        var hdr := inbuf[..HEADER_LEN];
        var h := ParseHeader(hdr);
        hide ReadHeader, Handle, Note;
        if h.pfix != TAG_SOH {
          return false;
        }
        var l2 := h.len + HEADER_LEN;
        if buffLen < l2 {
          return true;
        }
        inbuf := inbuf[HEADER_LEN..];
        Gap(h.session);
        if h.len > ARCHIVE_BUFF_CAPACITY {
          return false;
        }
        var payload := inbuf[..h.len];
        inbuf := inbuf[h.len..];
        ar.Fill(payload);
        ghost var filled := View();
        ok := HandleFrame(ar, h.mtype);
        assert ReadRound(idle, before, valid) == Handle(idle, filled, valid, h.mtype, payload);
        if !ok {
          return false;
        }
        HandleKeepsBuffer(idle, filled, valid, h.mtype, payload);
        buffLen := |inbuf|;
      }
      return true;
    }

    // The gap check and set_reader_session_index.
    method Gap(session: U32)
      modifies this`last, this`gaps
      ensures View() == Note(old(View()), session)
    {
      if last != 0 {
        var delta := IndexDelta(session, last);
        if delta != 1 {
          gaps := gaps + [delta];
        }
      }
      last := session;
    }
  }

  lemma HandleKeepsBuffer(idle: bool, r: Reader, valid: bool, t: Byte, payload: Bytes)
    ensures var s := Handle(idle, r, valid, t, payload); s != Wait && s.r.inbuf == r.inbuf
  {
  }
}
