/**
 The UDP reader decodes a datagram where it lies in the archive buffer, behind its header,
 and is proved to agree with the TCP reader given the same bytes.
 */
module UdpReaders {
  import opened Words
  import opened Messages
  import opened Codec
  import opened Archives
  import opened Readers
  import opened Streams

  // The archive buffer after recvfrom: the datagram, and behind it what the buffer held before.
  function Landed(datagram: Bytes, stale: Bytes): (b: Bytes)
    requires |datagram| <= |stale| == ARCHIVE_BUFF_CAPACITY
    ensures |b| == ARCHIVE_BUFF_CAPACITY
  {
    datagram + stale[|datagram|..]
  }

  // The bytes behind the header that a frame of this length is read from, in a buffer that may end before it does.
  function InPlace(contents: Bytes, len: nat): Bytes
    requires |contents| == ARCHIVE_BUFF_CAPACITY
  {
    contents[HEADER_LEN..][..if len <= ARCHIVE_BUFF_CAPACITY - HEADER_LEN then len else ARCHIVE_BUFF_CAPACITY - HEADER_LEN]
  }

  // What a datagram does to the last index and the deliveries; a UDP reader keeps no event buffer and logs no gaps.
  function ReadInPlace(idle: bool, last: U32, delivered: seq<Msg>, contents: Bytes): (U32, seq<Msg>)
    requires |contents| == ARCHIVE_BUFF_CAPACITY
  {
    var h := ReadHeader(contents[..HEADER_LEN]);
    if h.pfix != TAG_SOH then (last, delivered)
    else if h.len > ARCHIVE_BUFF_CAPACITY then (h.session, delivered)
    else match Handle(idle, Reader([], h.session, delivered, []), true, h.mtype, InPlace(contents, h.len))
      case Next(r, _) => (h.session, r.delivered)
      case _ => (h.session, delivered)
  }

  // As many bytes as the header and the length it announces.
  predicate Complete(datagram: Bytes) {
    && HEADER_LEN <= |datagram| <= ARCHIVE_BUFF_CAPACITY
    && HEADER_LEN + ReadHeader(datagram[..HEADER_LEN]).len <= |datagram|
  }

  /** Of a complete datagram, in-place reading delivers what the TCP reader delivers from the copied
      payload, and refuses what it refuses, whatever the buffer held before. A bare header, for which
      the TCP reader would still wait, delivers nothing. */
  lemma InPlaceIsStream(idle: bool, last: U32, delivered: seq<Msg>, datagram: Bytes, stale: Bytes)
    requires |stale| == ARCHIVE_BUFF_CAPACITY && Complete(datagram)
    ensures var h := ReadHeader(datagram[..HEADER_LEN]);
            var s := ReadRound(idle, Reader(datagram, last, delivered, []), true);
            ReadInPlace(idle, last, delivered, Landed(datagram, stale)) ==
            match s
            case Wait => (if h.pfix == TAG_SOH then h.session else last, delivered)
            case Fail(r) => (r.last, delivered)
            case Next(r, _) => (r.last, r.delivered)
  {
    var contents := Landed(datagram, stale);
    var h := ReadHeader(datagram[..HEADER_LEN]);
    assert contents[..HEADER_LEN] == datagram[..HEADER_LEN];
    assert InPlace(contents, h.len) == datagram[HEADER_LEN..][..h.len];
    hide ReadHeader, GetU64, GetMsg, Landed, InPlace;
    if h.len == 0 { ShortStamp(datagram[HEADER_LEN..][..0]); }
    var r' := Note(Reader(datagram[HEADER_LEN..], last, delivered, []), h.session);
    HandleLocal(idle, r'.(inbuf := datagram[HEADER_LEN..][h.len..]), Reader([], h.session, delivered, []), h.mtype,
                datagram[HEADER_LEN..][..h.len]);
  }

  // The message that a datagram in the buffer carries, if any: right tag, a type that is not ignored, a
  // length that the archive holds, and behind the time stamp what decodes as that type.
  function Carried(idle: bool, contents: Bytes): Parsed<Msg>
    requires |contents| == ARCHIVE_BUFF_CAPACITY
  {
    var h := ReadHeader(contents[..8]);
    var end := if 8 + h.len <= 2048 then 8 + h.len else 2048;
    if h.pfix != 1 || h.len > 2048 || end < 16 || !(1 <= h.mtype <= 12) || (idle && h.mtype == 7) then Bad
    else GetMsg(h.mtype, contents[16..end])
  }

  /** Complete or not, a datagram delivers exactly the message that the buffer then carries. */
  lemma InPlaceDelivers(idle: bool, last: U32, delivered: seq<Msg>, contents: Bytes)
    requires |contents| == ARCHIVE_BUFF_CAPACITY
    ensures var h, c := ReadHeader(contents[..8]), Carried(idle, contents);
            ReadInPlace(idle, last, delivered, contents) ==
            (if h.pfix == 1 then h.session else last, if c.Got? then delivered + [c.value] else delivered)
  {
    var h := ReadHeader(contents[..8]);
    var end := if 8 + h.len <= 2048 then 8 + h.len else 2048;
    var payload := InPlace(contents, h.len);
    assert payload == contents[8..end];
    if end >= 16 { assert payload[8..] == contents[16..end]; }
    StampSplits(payload);
    hide ReadHeader, GetU64, GetMsg, InPlace;
  }

  // How a frame is handled depends neither on the bytes behind it nor on the gaps before it.
  lemma HandleLocal(idle: bool, r: Reader, r': Reader, t: Byte, payload: Bytes)
    requires r'.last == r.last && r'.delivered == r.delivered
    ensures match Handle(idle, r, true, t, payload)
      case Wait => false
      case Fail(s) => s == r && Handle(idle, r', true, t, payload) == Fail(r')
      case Next(s, v) => s == r.(delivered := s.delivered) &&
                         Handle(idle, r', true, t, payload) == Next(r'.(delivered := s.delivered), v)
  {
    hide GetU64, GetMsg;
  }

  class UdpReader {
    const idle: bool
    var last: U32
    var delivered: seq<Msg>

    constructor (idle: bool)
      ensures this.idle == idle && last == 0 && delivered == []
    {
      this.idle := idle;
      last, delivered := 0, [];
    }

    // A datagram shorter than its header claims is only logged; what follows it in the buffer is read.
    method ReadDatagram(datagram: Bytes, stale: Bytes)
      requires 0 < |datagram| <= |stale| == ARCHIVE_BUFF_CAPACITY
      modifies this
      ensures (last, delivered) == ReadInPlace(idle, old(last), old(delivered), Landed(datagram, stale))
    {
      var contents := Landed(datagram, stale);
      var hdr := contents[..HEADER_LEN];
      var h := TcpReader.ParseHeader(hdr);
      hide ReadHeader, GetU64, GetMsg, Landed;
      if h.pfix != TAG_SOH {
        return;
      }
      last := h.session;
      if h.len > ARCHIVE_BUFF_CAPACITY {
        return;
      }
      var ar := new Archive();
      ar.Receive(contents, h.len, HEADER_LEN);
      ghost var payload := ar.Unread();
      assert payload == InPlace(contents, h.len);
      var stamp := ar.LoadU64();
      var skip := idle && h.mtype == MD_DELTA;
      if !skip {
        if KnownType(h.mtype) {
          var m := ar.LoadMsg(h.mtype);
          if !ar.valid {
            assert (last, delivered) == ReadInPlace(idle, old(last), old(delivered), contents);
            return;
          }
          delivered := delivered + [m];
        }
      }
      assert (last, delivered) == ReadInPlace(idle, old(last), old(delivered), contents);
    }
  }

  lemma ShortStamp(payload: Bytes)
    requires |payload| < WIRE_TSTAMP_LEN
    ensures GetU64(payload).Bad?
  {
  }
}
