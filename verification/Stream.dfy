/**
 When a TCP reader fails: every byte stream is a sequence of acceptable frames and a tail that either
 waits for more or is wrong, and the reader delivers the frames and fails exactly on a wrong tail.
 */
module Streams {
  import opened Words
  import opened Messages
  import opened Codec
  import opened RoundTrip
  import opened Lengths
  import opened Frames
  import opened Readers
  import opened EndToEnd

  // A header and the bytes that follow it.
  datatype RawFrame = RawFrame(h: Header, body: Bytes)

  function RawBytes(f: RawFrame): (b: Bytes)
    ensures |b| == HEADER_LEN + |f.body|
  {
    HeaderBytes(f.h) + f.body
  }

  function JoinRaw(fs: seq<RawFrame>): Bytes {
    if fs == [] then [] else RawBytes(fs[0]) + JoinRaw(fs[1..])
  }

  // No message type of the protocol, or a delta where the configuration idles on deltas.
  predicate Skips(idle: bool, t: Byte) {
    !(1 <= t <= 12) || (idle && t == 7)
  }

  // A body that fits the archive and is ignored, or is a time stamp and a message of the type.
  predicate Acceptable(idle: bool, t: Byte, body: Bytes) {
    |body| <= 2048 && (Skips(idle, t) || (|body| >= 8 && GetMsg(t, body[8..]).Got?))
  }

  predicate Good(idle: bool, f: RawFrame) {
    f.h.pfix == 1 && |f.body| == f.h.len && Acceptable(idle, f.h.mtype, f.body)
  }

  function Delivers(idle: bool, f: RawFrame): seq<Msg>
    requires Good(idle, f)
  {
    if Skips(idle, f.h.mtype) then [] else [GetMsg(f.h.mtype, f.body[8..]).value]
  }

  predicate AllGood(idle: bool, fs: seq<RawFrame>) {
    forall i :: 0 <= i < |fs| ==> Good(idle, fs[i])
  }

  function DeliversAll(idle: bool, fs: seq<RawFrame>): seq<Msg>
    requires AllGood(idle, fs)
  {
    if fs == [] then [] else Delivers(idle, fs[0]) + DeliversAll(idle, fs[1..])
  }

  // More is needed to tell: no more than a header, or a frame that is not there in full.
  predicate Pending(tail: Bytes) {
    |tail| <= 8 || (ReadHeader(tail[..8]).pfix == 1 && |tail| < 8 + ReadHeader(tail[..8]).len)
  }

  // More than a header, and the tag is wrong, or the frame is there and is not acceptable.
  predicate Wrong(idle: bool, tail: Bytes) {
    |tail| > 8 &&
    var h := ReadHeader(tail[..8]);
    h.pfix != 1 || (|tail| >= 8 + h.len && !Acceptable(idle, h.mtype, tail[8..8 + h.len]))
  }

  // A frame is looked at only when more than its header is there.
  predicate LookedAt(fs: seq<RawFrame>, tail: Bytes) {
    fs != [] && fs[|fs| - 1].body == [] ==> tail != []
  }

  // The frames and the tail that a stream consists of.
  ghost predicate Splits(idle: bool, stream: Bytes, fs: seq<RawFrame>, tail: Bytes) {
    && stream == JoinRaw(fs) + tail && AllGood(idle, fs) && LookedAt(fs, tail)
    && (Pending(tail) || Wrong(idle, tail))
  }

  // ---------- one round ----------

  lemma RoundSplits(idle: bool, r: Reader, h: Header, b: Bytes, rest: Bytes)
    requires r.inbuf == b + rest && |b| == 8 + h.len && |r.inbuf| > 8 && h.len <= 2048
    requires ReadHeader(b[..8]) == h && h.pfix == 1
    ensures ReadRound(idle, r, true) == Handle(idle, Note(r.(inbuf := rest), h.session), true, h.mtype, b[8..])
  {
    hide ReadHeader, Handle;
    var body := b[8..];
    assert r.inbuf[..8] == b[..8];
    assert r.inbuf[8..] == body + rest;
    assert (body + rest)[..h.len] == body && (body + rest)[h.len..] == rest;
  }

  lemma HandleGood(idle: bool, r: Reader, f: RawFrame)
    requires Good(idle, f)
    ensures var s := Handle(idle, r, true, f.h.mtype, f.body);
            s.Next? && s.r == r.(delivered := r.delivered + Delivers(idle, f)) && s.valid == (|f.body| >= 8)
  {
    hide GetMsg;
    StampSplits(f.body);
    assert r.delivered + [] == r.delivered;
  }

  lemma StampSplits(body: Bytes)
    ensures GetU64(body).Got? <==> |body| >= 8
    ensures |body| >= 8 ==> GetU64(body).rest == body[8..]
  {
  }

  lemma RawParts(f: RawFrame, rest: Bytes)
    ensures RawBytes(f)[..8] == HeaderBytes(f.h) && RawBytes(f)[8..] == f.body
    ensures ReadHeader(RawBytes(f)[..8]) == f.h
  {
    HeaderRoundTrip(f.h);
    assert RawBytes(f)[..8] == HeaderBytes(f.h);
    hide HeaderBytes, ReadHeader;
  }

  lemma RoundGood(idle: bool, r: Reader, f: RawFrame, rest: Bytes)
    requires Good(idle, f) && r.inbuf == RawBytes(f) + rest && |r.inbuf| > 8
    ensures var s := ReadRound(idle, r, true);
            && s.Next? && s.valid == (|f.body| >= 8) && s.r.inbuf == rest && s.r.last == f.h.session
            && s.r.delivered == r.delivered + Delivers(idle, f)
  {
    RawParts(f, rest);
    var r' := Note(r.(inbuf := rest), f.h.session);
    hide RawBytes, ReadHeader, Handle;
    RoundSplits(idle, r, f.h, RawBytes(f), rest);
    HandleGood(idle, r', f);
  }

  lemma RoundPending(idle: bool, r: Reader)
    requires Pending(r.inbuf)
    ensures ReadRound(idle, r, true) == Wait
  {
    hide ReadHeader;
  }

  lemma RoundWrong(idle: bool, r: Reader)
    requires Wrong(idle, r.inbuf)
    ensures var s := ReadRound(idle, r, true); s.Fail? && s.r.delivered == r.delivered
  {
    hide ReadHeader, GetMsg, GetU64;
    var h := ReadHeader(r.inbuf[..8]);
    if h.pfix == 1 && h.len <= 2048 {
      var body := r.inbuf[8..8 + h.len];
      assert body == r.inbuf[8..][..h.len];
      StampSplits(body);
      assert !Skips(idle, h.mtype) && (|body| >= 8 ==> GetMsg(h.mtype, body[8..]).Bad?);
    }
  }

  // ---------- whole streams ----------

  lemma LookedAtRest(fs: seq<RawFrame>, tail: Bytes)
    requires fs != [] && LookedAt(fs, tail)
    ensures LookedAt(fs[1..], tail) && |RawBytes(fs[0]) + (JoinRaw(fs[1..]) + tail)| > 8
  {
    hide RawBytes;
    if fs[0].body == [] && |fs| > 1 { assert |JoinRaw(fs[1..])| >= |RawBytes(fs[1])|; }
  }

  /** A reader that resets its archive takes the good frames off a stream, delivers what they carry, and
      then waits with a pending tail or fails on a wrong one. */
  lemma {:induction false} RoundsExact(idle: bool, r: Reader, fs: seq<RawFrame>, tail: Bytes)
    requires Splits(idle, r.inbuf, fs, tail)
    ensures var got := Rounds(idle, true, r, true);
            && (got.ok <==> Pending(tail))
            && got.r.delivered == r.delivered + DeliversAll(idle, fs)
            && (got.ok ==> got.r.inbuf == tail && got.r.last == if fs == [] then r.last else fs[|fs| - 1].h.session)
    decreases |fs|
  {
    hide ReadRound, RawBytes, Pending, Good, Delivers;
    if fs == [] {
      assert [] + tail == tail && r.delivered + [] == r.delivered;
      if Pending(tail) { RoundPending(idle, r); } else { RoundWrong(idle, r); }
    } else {
      var rest := JoinRaw(fs[1..]) + tail;
      Assoc(RawBytes(fs[0]), JoinRaw(fs[1..]), tail);
      LookedAtRest(fs, tail);
      hide LookedAt, Wrong;
      assert Good(idle, fs[0]);
      RoundGood(idle, r, fs[0], rest);
      RoundsExact(idle, ReadRound(idle, r, true).r, fs[1..], tail);
      var one, more := Delivers(idle, fs[0]), DeliversAll(idle, fs[1..]);
      assert (r.delivered + one) + more == r.delivered + (one + more);
    }
  }

  // No frame that is delivered stands behind one too short for its time stamp.
  predicate NoneShadowed(idle: bool, fs: seq<RawFrame>) {
    forall i, j :: 0 <= i < j < |fs| && |fs[i].body| < 8 ==> Skips(idle, fs[j].h.mtype)
  }

  predicate Short(fs: seq<RawFrame>) {
    exists i :: 0 <= i < |fs| && |fs[i].body| < 8
  }

  // The same with a short frame somewhere before: then nothing more may be delivered.
  predicate Quiet(idle: bool, fs: seq<RawFrame>, seen: bool) {
    NoneShadowed(idle, fs) && (seen ==> forall j :: 0 <= j < |fs| ==> Skips(idle, fs[j].h.mtype))
  }

  lemma QuietRest(idle: bool, fs: seq<RawFrame>, seen: bool)
    requires fs != [] && Quiet(idle, fs, seen)
    ensures Quiet(idle, fs[1..], seen || |fs[0].body| < 8) && (seen ==> Skips(idle, fs[0].h.mtype))
  {
    hide Skips;
    forall i, j | 0 <= i < j < |fs[1..]| && |fs[1..][i].body| < 8 ensures Skips(idle, fs[1..][j].h.mtype) {
      assert fs[1..][i] == fs[i + 1] && fs[1..][j] == fs[j + 1];
    }
    if seen || |fs[0].body| < 8 {
      forall j | 0 <= j < |fs[1..]| ensures Skips(idle, fs[1..][j].h.mtype) {
        assert fs[1..][j] == fs[j + 1];
      }
    }
  }

  lemma {:induction false} QuietStream(idle: bool, r: Reader, fs: seq<RawFrame>, tail: Bytes, seen: bool)
    requires Splits(idle, r.inbuf, fs, tail) && Quiet(idle, fs, seen)
    ensures !DeliversAfterShort(idle, r, seen)
    decreases |fs|
  {
    hide ReadRound, RawBytes, Pending, Good, Skips;
    if fs == [] {
      assert [] + tail == tail;
      if Pending(tail) { RoundPending(idle, r); } else { RoundWrong(idle, r); }
    } else {
      var rest := JoinRaw(fs[1..]) + tail;
      Assoc(RawBytes(fs[0]), JoinRaw(fs[1..]), tail);
      LookedAtRest(fs, tail);
      QuietRest(idle, fs, seen);
      hide LookedAt, Wrong, Quiet;
      assert Good(idle, fs[0]);
      RoundGood(idle, r, fs[0], rest);
      if seen { assert r.delivered + [] == r.delivered; }
      QuietStream(idle, ReadRound(idle, r, true).r, fs[1..], tail, seen || |fs[0].body| < 8);
    }
  }

  /** However the stream arrives, reading delivers exactly the messages of its good frames, and fails
      exactly if what follows them is wrong. */
  lemma ReadExact(idle: bool, fs: seq<RawFrame>, tail: Bytes, arrivals: seq<Bytes>)
    requires Splits(idle, Join(arrivals), fs, tail) && NoneShadowed(idle, fs)
    ensures var got := ReadAll(idle, START, arrivals);
            && (got.ok <==> Pending(tail))
            && got.r.delivered == DeliversAll(idle, fs)
            && (got.ok ==> got.r.inbuf == tail && got.r.last == if fs == [] then 0 else fs[|fs| - 1].h.session)
  {
    var r := Arrive(START, Join(arrivals));
    assert r.inbuf == Join(arrivals);
    RoundsExact(idle, r, fs, tail);
    QuietStream(idle, r, fs, tail, false);
    StepWaits(idle, START);
    AnyCut(idle, START, arrivals);
    hide Rounds, ReadAll, DeliversAfterShort, Pending, Splits, DeliversAll;
    assert [] + DeliversAll(idle, fs) == DeliversAll(idle, fs);
  }

  // ---------- every stream splits ----------

  lemma HeaderBack(b: Bytes)
    requires |b| == 8
    ensures HeaderBytes(ReadHeader(b)) == b
  {
    hide Wire64, Unwire64;
    var d := Unwire64(b);
    WordOfHeader(d);
    Wire64Unwire64(b);
  }

  lemma WordOfHeader(d: U64)
    ensures HeaderWord(HeaderOf(d)) == d
  {
    var a, b, c := d / 0x100, d / 0x1_0000, d / 0x1_0000_0000;
    Quotients(d);
    assert d == a * 0x100 + d % 0x100 && a == b * 0x100 + a % 0x100 && b == c * 0x1_0000 + b % 0x1_0000;
  }

  lemma Quotients(d: nat)
    ensures d / 0x100 / 0x100 == d / 0x1_0000 && d / 0x1_0000 / 0x1_0000 == d / 0x1_0000_0000
  {
  }

  lemma {:induction false} SplitStream(idle: bool, stream: Bytes) returns (fs: seq<RawFrame>, tail: Bytes)
    ensures Splits(idle, stream, fs, tail)
    decreases |stream|
  {
    hide ReadHeader, HeaderBytes, Acceptable, Skips;
    if Pending(stream) || Wrong(idle, stream) {
      fs, tail := [], stream;
      assert [] + tail == tail;
    } else {
      var h := ReadHeader(stream[..8]);
      var f := RawFrame(h, stream[8..8 + h.len]);
      var rest := stream[8 + h.len..];
      HeaderBack(stream[..8]);
      assert RawBytes(f) + rest == stream;
      assert Good(idle, f);
      var more, t := SplitStream(idle, rest);
      fs, tail := [f] + more, t;
      assert fs[1..] == more;
      Assoc(RawBytes(f), JoinRaw(more), t);
      hide RawBytes, Pending, Wrong, Good;
    }
  }

  /** A stream in which nothing is delivered behind a short frame closes the connection, however it
      arrives, exactly if it is not a sequence of acceptable frames and a pending tail. */
  lemma FailsIff(idle: bool, arrivals: seq<Bytes>)
    requires forall fs, tail :: Splits(idle, Join(arrivals), fs, tail) ==> NoneShadowed(idle, fs)
    ensures ReadAll(idle, START, arrivals).ok <==>
            exists fs, tail :: Splits(idle, Join(arrivals), fs, tail) && Pending(tail)
  {
    hide ReadAll, Splits, Pending, NoneShadowed;
    var fs, tail := SplitStream(idle, Join(arrivals));
    ReadExact(idle, fs, tail, arrivals);
    forall gs, t | Splits(idle, Join(arrivals), gs, t) && Pending(t) ensures ReadAll(idle, START, arrivals).ok {
      ReadExact(idle, gs, t, arrivals);
    }
  }

  // ---------- sent frames with something wrong behind them ----------

  function RawOf(f: Frame): RawFrame {
    RawFrame(HeaderFor(f.msg, f.session), Wire64(f.stamp) + Payload(f.msg))
  }

  lemma RawOfFrame(idle: bool, f: Frame)
    requires Fits(f.msg)
    ensures RawBytes(RawOf(f)) == FrameBytes(f) && |RawOf(f).body| >= 8
    ensures Good(idle, RawOf(f)) && Delivers(idle, RawOf(f)) == Seen(idle, f)
  {
    var h, payload := HeaderFor(f.msg, f.session), Payload(f.msg);
    RecordOfFitting(f.msg, f.session, f.stamp);
    MsgRoundTrip(f.msg, []);
    assert payload + [] == payload;
    assert RawOf(f).body[8..] == payload;
    assert h.mtype == MsgType(f.msg) && h.pfix == 1;
    TypeSkips(idle, f.msg);
    hide HeaderBytes, Wire64, Payload, GetMsg, Record, MsgType, Skips;
    Assoc(HeaderBytes(h), Wire64(f.stamp), payload);
  }

  lemma TypeSkips(idle: bool, m: Msg)
    ensures Skips(idle, MsgType(m)) <==> idle && m.MdDeltaMsg?
  {
  }

  function RawsOf(fs: seq<Frame>): (r: seq<RawFrame>)
    ensures |r| == |fs|
  {
    seq(|fs|, i requires 0 <= i < |fs| => RawOf(fs[i]))
  }

  lemma {:induction false} RawsOfFrames(idle: bool, fs: seq<Frame>)
    requires forall f :: f in fs ==> Fits(f.msg)
    ensures JoinRaw(RawsOf(fs)) == JoinFrames(fs) && AllGood(idle, RawsOf(fs))
    ensures DeliversAll(idle, RawsOf(fs)) == Visible(idle, fs)
    ensures forall i :: 0 <= i < |fs| ==> |RawsOf(fs)[i].body| >= 8
  {
    hide Fits, RawOf, RawBytes, FrameBytes, Good, Delivers, Seen;
    if fs != [] {
      assert fs[0] in fs && forall f :: f in fs[1..] ==> f in fs;
      RawOfFrame(idle, fs[0]);
      RawsOfFrames(idle, fs[1..]);
      assert RawsOf(fs)[1..] == RawsOf(fs[1..]);
      forall i | 0 <= i < |fs| ensures Good(idle, RawsOf(fs)[i]) && |RawsOf(fs)[i].body| >= 8 {
        assert fs[i] in fs;
        RawOfFrame(idle, fs[i]);
      }
    }
  }

  /** Frames of fitting messages with anything wrong behind them, a wrong tag, a frame too long for the
      archive or one that does not decode: however it all arrives, the messages are delivered and the
      connection is closed. */
  lemma WrongCloses(idle: bool, fs: seq<Frame>, bad: Bytes, arrivals: seq<Bytes>)
    requires forall f :: f in fs ==> Fits(f.msg)
    requires Wrong(idle, bad) && Join(arrivals) == JoinFrames(fs) + bad
    ensures var got := ReadAll(idle, START, arrivals); !got.ok && got.r.delivered == Visible(idle, fs)
  {
    RawsOfFrames(idle, fs);
    var raws := RawsOf(fs);
    WrongNotPending(idle, bad);
    hide RawsOf, JoinRaw, JoinFrames, Wrong, Pending, ReadAll, Fits, AllGood, Visible, DeliversAll;
    assert Splits(idle, Join(arrivals), raws, bad);
    ReadExact(idle, raws, bad, arrivals);
  }

  lemma WrongNotPending(idle: bool, bad: Bytes)
    requires Wrong(idle, bad)
    ensures !Pending(bad)
  {
    hide ReadHeader, Acceptable;
  }
}
