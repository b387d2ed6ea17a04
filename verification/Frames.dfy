/**
 What one send_message or send_message_to call puts into its archive: header, time stamp and
 payload. The validity of the archive is not looked at before it is sent.
 */
module Frames {
  import opened Words
  import opened Messages
  import opened Codec
  import opened RoundTrip
  import opened Archives
  import opened Lengths

  // start_header followed by h.len += calc_len(), on a uint16_t.
  function HeaderFor(m: Msg, session: U32): Header {
    Header(TAG_SOH, MsgType(m), Low16(WIRE_TSTAMP_LEN + Low16(|Payload(m)|)), session)
  }

  // Header and time stamp.
  function Front(h: Header, stamp: U64): (b: Bytes)
    ensures |b| == HEADER_LEN + WIRE_TSTAMP_LEN
  {
    HeaderBytes(h) + Wire64(stamp)
  }

  // The archive as send_message leaves it; its bytes are sent whether or not it is valid.
  function Record(m: Msg, session: U32, stamp: U64): Out {
    WriteAll(Out(Front(HeaderFor(m, session), stamp), true), PutMsg(m))
  }

  // What the refused writes of that call would have added.
  function Lost(m: Msg, session: U32, stamp: U64): nat {
    Skipped(Out(Front(HeaderFor(m, session), stamp), true), PutMsg(m))
  }

  predicate Fits(m: Msg) {
    HEADER_LEN + WIRE_TSTAMP_LEN + |Payload(m)| <= ARCHIVE_BUFF_CAPACITY
  }

  lemma HeaderLen(n: nat)
    ensures Low16(WIRE_TSTAMP_LEN + Low16(n)) == (WIRE_TSTAMP_LEN + n) % 0x1_0000
  {
  }

  /** The archive is valid exactly when header, stamp and payload fit; it then holds them, and its
      header announces the exact number of bytes that follow it. */
  lemma RecordOfFitting(m: Msg, session: U32, stamp: U64)
    ensures Record(m, session, stamp).valid <==> Fits(m)
    ensures Fits(m) ==>
      var r, h := Record(m, session, stamp).bytes, HeaderFor(m, session);
      && r == Front(h, stamp) + Payload(m)
      && |r| == HEADER_LEN + h.len
      && h.len == WIRE_TSTAMP_LEN + |Payload(m)| <= ARCHIVE_BUFF_CAPACITY
  {
    hide Front, PutMsg;
    WriteFits(Out(Front(HeaderFor(m, session), stamp), true), PutMsg(m));
    HeaderLen(|Payload(m)|);
  }

  /** A message whose payload is shorter than 2^16 bytes goes out well framed exactly when it fits.
      Whatever its length, the record is as long as its header says exactly when the bytes lost to
      refused writes come to a multiple of 2^16. */
  lemma FramedIff(m: Msg, session: U32, stamp: U64)
    ensures |Payload(m)| < 0x1_0000 ==> (Framed(m, session, stamp) <==> Fits(m))
    ensures Framed(m, session, stamp) <==> Lost(m, session, stamp) % 0x1_0000 == 0
  {
    var o := Out(Front(HeaderFor(m, session), stamp), true);
    WriteConservation(o, PutMsg(m));
    WriteGrows(o, PutMsg(m));
    HeaderLen(|Payload(m)|);
    RecordOfFitting(m, session, stamp);
    hide Front, PutMsg, HeaderFor, Fits;
    FramedArithmetic(|Record(m, session, stamp).bytes| - HEADER_LEN, Lost(m, session, stamp),
                     WIRE_TSTAMP_LEN + |Payload(m)|);
  }

  // The record is as long as its header announces.
  predicate Framed(m: Msg, session: U32, stamp: U64) {
    |Record(m, session, stamp).bytes| == HEADER_LEN + HeaderFor(m, session).len
  }

  lemma {:induction false} WriteGrows(o: Out, l: Layout)
    ensures |WriteAll(o, l).bytes| >= |o.bytes|
    decreases l
  {
    match l
    case Nothing =>
    case Field(_) =>
    case Then(a, b) =>
      WriteGrows(o, a);
      WriteGrows(WriteAll(o, a), b);
  }

  lemma FramedArithmetic(kept: nat, lost: nat, total: nat)
    requires kept + lost == total && WIRE_TSTAMP_LEN <= kept < 0x1_0000
    ensures kept == total % 0x1_0000 <==> lost % 0x1_0000 == 0
    ensures total < 0x1_0000 + WIRE_TSTAMP_LEN ==> (lost % 0x1_0000 == 0 <==> lost == 0)
  {
  }

  // What is sent of a text that does not fit: its length field and none of its characters.
  lemma LongText(text: Str, session: U32, stamp: U64)
    requires !Fits(Text(text))
    ensures var r := Record(Text(text), session, stamp);
            !r.valid && r.bytes == Front(HeaderFor(Text(text), session), stamp) + Wire16(|text| % 0x1_0000)
  {
    StringSize(text);
    var o := Out(Front(HeaderFor(Text(text), session), stamp), true);
    var l := Wire16(|text| % 0x1_0000);
    hide Front, Wire16, HeaderFor;
    assert WriteAll(o, PutString(text)) == Write(Write(o, l), text);
    assert Write(o, l) == Out(o.bytes + l, true);
  }

  /** Over all texts: the record is well framed exactly when the text fits or its length is a multiple
      of 2^16. In that case, if it does not fit, it goes out as a different message, the empty text. */
  lemma LongTextArrivesEmpty(text: Str, session: U32, stamp: U64)
    ensures var m := Text(text);
            && (Framed(m, session, stamp) <==> Fits(m) || |text| % 0x1_0000 == 0)
            && (!Fits(m) && |text| % 0x1_0000 == 0 ==>
                  var r := Record(m, session, stamp);
                  !r.valid && r.bytes == Front(HeaderFor(m, session), stamp) + Payload(Text([])))
  {
    var m := Text(text);
    StringSize(text);
    RecordOfFitting(m, session, stamp);
    if !Fits(m) {
      LongText(text, session, stamp);
      HeaderLen(2 + |text|);
      assert Payload(Text([])) == Wire16(0);
      TextArithmetic(|text|);
      hide Front, Wire16;
    }
  }

  lemma TextArithmetic(n: nat)
    ensures (WIRE_TSTAMP_LEN + (2 + n)) % 0x1_0000 == WIRE_TSTAMP_LEN + 2 <==> n % 0x1_0000 == 0
  {
  }

  // store_header and the message operator, on a new archive.
  method Encode(m: Msg, session: U32, stamp: U64) returns (ar: Archive)
    ensures fresh(ar) && fresh(ar.buff) && ar.Inv() && ar.start == 0
    ensures ar.State() == Record(m, session, stamp)
  {
    var n := CalcLen(m);
    var h := Header(TAG_SOH, MsgType(m), Low16(WIRE_TSTAMP_LEN + n), session);
    assert h == HeaderFor(m, session);
    hide HeaderFor, PutMsg, Wire64, HeaderBytes;
    ar := new Archive();
    ar.StoreHeader(h, stamp);
    assert ar.State() == Out(Front(h, stamp), true) by {
      assert |Front(h, stamp)| == 16;
    }
    ar.StoreMsg(m);
  }
}
