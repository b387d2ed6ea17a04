/**
 The wire format: what every message type writes into an archive, field by field, and the
 parser that reads it back. The archive class is proved against these definitions.
 */
module Codec {
  import opened Words
  import opened Messages

  // ---------- layouts: the sequence of buffer writes a value causes ----------

  datatype Layout = Nothing | Field(bytes: Bytes) | Then(first: Layout, second: Layout)

  function Flat(l: Layout): Bytes {
    match l
    case Nothing => []
    case Field(b) => b
    case Then(a, b) => Flat(a) + Flat(b)
  }

  function PutU8(v: Byte): Layout { Field([v]) }
  function PutU16(v: U16): Layout { Field(Wire16(v)) }
  function PutU32(v: U32): Layout { Field(Wire32(v)) }
  function PutU64(v: U64): Layout { Field(Wire64(v)) }

  // int32_t goes through htonl as its two's complement pattern.
  function Pattern(v: I32): U32 { v % 0x1_0000_0000 }
  function PutI32(v: I32): Layout { PutU32(Pattern(v)) }

  // The length field is truncated to 16 bits; the characters are written in full.
  function PutString(s: Str): Layout {
    Then(PutU16(|s| % 0x1_0000), Field(s))
  }

  function PutMany<T>(put: T -> Layout, v: seq<T>): Layout {
    if v == [] then Nothing else Then(PutMany(put, v[..|v| - 1]), put(v[|v| - 1]))
  }

  function PutVec<T>(put: T -> Layout, v: seq<T>): Layout {
    Then(PutU16(|v| % 0x1_0000), PutMany(put, v))
  }

  function PutMenuItem(i: MenuItem): Layout {
    Then(PutU16(i.idx), PutString(i.val))
  }

  // Struct of arrays: all indexes, then all values.
  function Indexes<T>(v: seq<Update<T>>): (r: seq<U16>) { seq(|v|, i requires 0 <= i < |v| => v[i].idx) }
  function Values<T>(v: seq<Update<T>>): (r: seq<T>) { seq(|v|, i requires 0 <= i < |v| => v[i].val) }

  function PutUpdates<T>(put: T -> Layout, v: seq<Update<T>>): Layout {
    Then(PutMany(PutU16, Indexes(v)), PutMany(put, Values(v)))
  }

  // The four size bytes of a delta, overlaid by one 32-bit word.
  function SizeWord(d: Delta): U32 {
    |d.ints| + |d.dbls| * 0x100 + d.reserved * 0x1_0000 + |d.stamps| * 0x100_0000
  }

  function PutDelta(d: Delta): Layout {
    Then(PutString(d.symbol), Then(PutU32(SizeWord(d)),
      Then(PutUpdates(PutI32, d.ints), Then(PutUpdates(PutU64, d.dbls), PutMany(PutU64, d.stamps)))))
  }

  // The set fields below n in ascending order.
  function Ascending(s: set<FieldIndex>, n: nat): (r: seq<FieldIndex>)
    requires n <= SNAPSHOT_FIELDS_NUM
    ensures forall k :: k in r <==> k in s && k < n
  {
    if n == 0 then [] else Ascending(s, n - 1) + if n - 1 in s then [n - 1] else []
  }

  function Fields(s: set<FieldIndex>): (r: seq<FieldIndex>)
    ensures forall k :: k in r <==> k in s
  {
    Ascending(s, SNAPSHOT_FIELDS_NUM)
  }

  function Pick<T>(m: map<FieldIndex, T>, ks: seq<FieldIndex>): (vs: seq<T>)
    requires forall k :: k in ks ==> k in m
    ensures |vs| == |ks|
  {
    seq(|ks|, i requires 0 <= i < |ks| => m[ks[i]])
  }

  function PutBits(s: set<FieldIndex>): Layout {
    Then(PutU16(|s| % 0x1_0000), PutMany<U16>(PutU16, Fields(s)))
  }

  function PutFields<T>(put: T -> Layout, m: map<FieldIndex, T>): Layout {
    PutMany(put, Pick(m, Fields(m.Keys)))
  }

  function PutRef(d: RefData): Layout {
    Then(PutString(d.symbol), Then(PutBits(d.ints.Keys), Then(PutBits(d.dbls.Keys), Then(PutBits(d.strs.Keys),
      Then(PutFields(PutI32, d.ints), Then(PutFields(PutU64, d.dbls), PutFields(PutString, d.strs)))))))
  }

  function PutMsg(m: Msg): Layout {
    match m
    case Login(version, user, token, params) =>
      Then(PutU16(version), Then(PutString(user), Then(PutString(token), PutVec(PutString, params))))
    case LoginReply(version, code, desc, params) =>
      Then(PutU16(version), Then(PutU16(code), Then(PutString(desc), PutVec(PutString, params))))
    case Text(text) => PutString(text)
    case Heartbeat(counter) => PutU32(counter)
    case Subscribe(symbols) => PutVec(PutString, symbols)
    case MdRef(ref) => PutRef(ref)
    case MdDeltaMsg(delta) => PutDelta(delta)
    case Menu(menu) => PutVec(PutMenuItem, menu)
    case IntVec(ctx, ints) => Then(PutString(ctx), PutVec(PutU32, ints))
    case ByteVec(ctx, bytes) => Then(PutString(ctx), PutVec(PutU8, bytes))
    case DoubleVec(ctx, dbls) => Then(PutString(ctx), PutVec(PutU64, dbls))
    case Command(cmd, ctx, params) => Then(PutU8(cmd), Then(PutString(ctx), PutVec(PutString, params)))
  }

  function Payload(m: Msg): Bytes {
    Flat(PutMsg(m))
  }

  // ---------- parsers: what is read, and what is left to read ----------

  datatype Parsed<+T> = Bad | Got(value: T, rest: Bytes) {
    predicate IsFailure() { Bad? }
    function PropagateFailure<U>(): Parsed<U> requires Bad? { Bad }
    function Extract(): (T, Bytes) requires Got? { (value, rest) }
  }

  function GetBytes(n: nat, data: Bytes): (p: Parsed<Bytes>)
    ensures p.Got? ==> |p.value| == n
  {
    if n <= |data| then Got(data[..n], data[n..]) else Bad
  }

  function GetU8(data: Bytes): Parsed<Byte> {
    var (b, rest) :- GetBytes(1, data);
    Got(b[0], rest)
  }

  function GetU16(data: Bytes): Parsed<U16> {
    var (b, rest) :- GetBytes(2, data);
    Got(Unwire16(b), rest)
  }

  function GetU32(data: Bytes): Parsed<U32> {
    var (b, rest) :- GetBytes(4, data);
    Got(Unwire32(b), rest)
  }

  function GetU64(data: Bytes): Parsed<U64> {
    var (b, rest) :- GetBytes(8, data);
    Got(Unwire64(b), rest)
  }

  function Signed(p: U32): I32 {
    if p < 0x8000_0000 then p else p - 0x1_0000_0000
  }

  function GetI32(data: Bytes): Parsed<I32> {
    var (p, rest) :- GetU32(data);
    Got(Signed(p), rest)
  }

  function GetString(data: Bytes): Parsed<Str> {
    var (n, rest) :- GetU16(data);
    GetBytes(n, rest)
  }

  function GetMany<T>(get: Bytes -> Parsed<T>, n: nat, data: Bytes): (p: Parsed<seq<T>>)
    ensures p.Got? ==> |p.value| == n
  {
    if n == 0 then Got([], data) else
    var (x, rest) :- get(data);
    var (xs, end) :- GetMany(get, n - 1, rest);
    Got([x] + xs, end)
  }

  function GetVec<T>(get: Bytes -> Parsed<T>, data: Bytes): Parsed<seq<T>> {
    var (n, rest) :- GetU16(data);
    GetMany(get, n, rest)
  }

  function GetMenuItem(data: Bytes): Parsed<MenuItem> {
    var (idx, rest) :- GetU16(data);
    var (val, end) :- GetString(rest);
    Got(MenuItem(idx, val), end)
  }

  function Zip<T>(idx: seq<U16>, val: seq<T>): (r: seq<Update<T>>)
    requires |idx| == |val|
    ensures |r| == |idx|
  {
    seq(|idx|, i requires 0 <= i < |idx| => Update(idx[i], val[i]))
  }

  function GetUpdates<T>(get: Bytes -> Parsed<T>, n: nat, data: Bytes): (p: Parsed<seq<Update<T>>>)
    ensures p.Got? ==> |p.value| == n
  {
    var (idx, rest) :- GetMany(GetU16, n, data);
    var (val, end) :- GetMany(get, n, rest);
    Got(Zip(idx, val), end)
  }

  // The arrays of a delta, as long as its size word says.
  function GetSized(symbol: Str, size: U32, data: Bytes): Parsed<Delta> {
    var ni, nd, ns := size % 0x100, size / 0x100 % 0x100, size / 0x100_0000;
    if ni > INT_DELTA_SIZE || nd > DBL_DELTA_SIZE then Bad else
    var (ints, r0) :- GetUpdates(GetI32, ni, data);
    var (dbls, r1) :- GetUpdates(GetU64, nd, r0);
    if ns > STAMP_DELTA_SIZE then Bad else
    var (stamps, r2) :- GetMany(GetU64, ns, r1);
    Got(MdDelta(symbol, ints, dbls, size / 0x1_0000 % 0x100, stamps), r2)
  }

  function GetDelta(data: Bytes): Parsed<Delta> {
    var (symbol, r0) :- GetString(data);
    var (size, r1) :- GetU32(r0);
    GetSized(symbol, size, r1)
  }

  predicate InRange(idx: seq<U16>) {
    forall k :: k in idx ==> k < SNAPSHOT_FIELDS_NUM
  }

  function GetBits(data: Bytes): Parsed<set<FieldIndex>> {
    var (idx, rest) :- GetVec(GetU16, data);
    if InRange(idx) then Got((set k: FieldIndex | k in idx), rest) else Bad
  }

  function ToMap<T>(ks: seq<FieldIndex>, vs: seq<T>): map<FieldIndex, T>
    requires |ks| == |vs|
  {
    if ks == [] then map[] else
    var n := |ks| - 1;
    ToMap(ks[..n], vs[..n])[ks[n] := vs[n]]
  }

  function GetFields<T>(get: Bytes -> Parsed<T>, s: set<FieldIndex>, data: Bytes): Parsed<map<FieldIndex, T>> {
    var (vs, rest) :- GetMany(get, |Fields(s)|, data);
    Got(ToMap(Fields(s), vs), rest)
  }

  function GetRef(data: Bytes): Parsed<RefData> {
    var (symbol, r0) :- GetString(data);
    var (fi, r1) :- GetBits(r0);
    var (fd, r2) :- GetBits(r1);
    var (fs, r3) :- GetBits(r2);
    var (ints, r4) :- GetFields(GetI32, fi, r3);
    var (dbls, r5) :- GetFields(GetU64, fd, r4);
    var (strs, r6) :- GetFields(GetString, fs, r5);
    Got(RefData(symbol, ints, dbls, strs), r6)
  }

  function GetLogin(data: Bytes): Parsed<Msg> {
    var (version, r0) :- GetU16(data);
    var (user, r1) :- GetString(r0);
    var (token, r2) :- GetString(r1);
    var (params, r3) :- GetVec(GetString, r2);
    Got(Login(version, user, token, params), r3)
  }

  function GetLoginReply(data: Bytes): Parsed<Msg> {
    var (version, r0) :- GetU16(data);
    var (code, r1) :- GetU16(r0);
    var (desc, r2) :- GetString(r1);
    var (params, r3) :- GetVec(GetString, r2);
    Got(LoginReply(version, code, desc, params), r3)
  }

  function GetCommand(data: Bytes): Parsed<Msg> {
    var (cmd, r0) :- GetU8(data);
    var (ctx, r1) :- GetString(r0);
    var (params, r2) :- GetVec(GetString, r1);
    Got(Command(cmd, ctx, params), r2)
  }

  function GetNumVec<T>(get: Bytes -> Parsed<T>, data: Bytes): Parsed<(Str, seq<T>)> {
    var (ctx, r0) :- GetString(data);
    var (nums, r1) :- GetVec(get, r0);
    Got((ctx, nums), r1)
  }

  function GetText(data: Bytes): Parsed<Msg> {
    var (text, r) :- GetString(data);
    Got(Text(text), r)
  }

  function GetHeartbeat(data: Bytes): Parsed<Msg> {
    var (counter, r) :- GetU32(data);
    Got(Heartbeat(counter), r)
  }

  function GetSubscribe(data: Bytes): Parsed<Msg> {
    var (symbols, r) :- GetVec(GetString, data);
    Got(Subscribe(symbols), r)
  }

  function GetMdRef(data: Bytes): Parsed<Msg> {
    var (ref, r) :- GetRef(data);
    Got(MdRef(ref), r)
  }

  function GetMdDelta(data: Bytes): Parsed<Msg> {
    var (delta, r) :- GetDelta(data);
    Got(MdDeltaMsg(delta), r)
  }

  function GetMenu(data: Bytes): Parsed<Msg> {
    var (menu, r) :- GetVec(GetMenuItem, data);
    Got(Menu(menu), r)
  }

  function GetIntVec(data: Bytes): Parsed<Msg> {
    var (v, r) :- GetNumVec(GetU32, data);
    Got(IntVec(v.0, v.1), r)
  }

  function GetByteVec(data: Bytes): Parsed<Msg> {
    var (v, r) :- GetNumVec(GetU8, data);
    Got(ByteVec(v.0, v.1), r)
  }

  function GetDoubleVec(data: Bytes): Parsed<Msg> {
    var (v, r) :- GetNumVec(GetU64, data);
    Got(DoubleVec(v.0, v.1), r)
  }

  function GetMsg(t: Byte, data: Bytes): Parsed<Msg>
    requires KnownType(t)
  {
    match t
    case 1 => GetLogin(data)
    case 2 => GetLoginReply(data)
    case 3 => GetText(data)
    case 4 => GetHeartbeat(data)
    case 5 => GetSubscribe(data)
    case 6 => GetMdRef(data)
    case 7 => GetMdDelta(data)
    case 8 => GetMenu(data)
    case 9 => GetIntVec(data)
    case 10 => GetByteVec(data)
    case 11 => GetDoubleVec(data)
    case 12 => GetCommand(data)
  }

  // ---------- the frame header ----------

  datatype Header = Header(pfix: Byte, mtype: Byte, len: U16, session: U32)

  // The header struct overlaid by one 64-bit word.
  function HeaderWord(h: Header): U64 {
    h.pfix + h.mtype * 0x100 + h.len * 0x1_0000 + h.session * 0x1_0000_0000
  }

  function HeaderOf(d: U64): Header {
    Header(d % 0x100, d / 0x100 % 0x100, d / 0x1_0000 % 0x1_0000, d / 0x1_0000_0000)
  }

  function HeaderBytes(h: Header): (b: Bytes)
    ensures |b| == HEADER_LEN
  {
    Wire64(HeaderWord(h))
  }

  function ReadHeader(b: Bytes): Header
    requires |b| == HEADER_LEN
  {
    HeaderOf(Unwire64(b))
  }

  lemma HeaderOverlay(h: Header)
    ensures HeaderOf(HeaderWord(h)) == h
  {
    var d := HeaderWord(h);
    assert d / 0x1_0000_0000 == h.session;
    assert d / 0x1_0000 == h.len + h.session * 0x1_0000;
    assert d / 0x100 == h.mtype + h.len * 0x100 + h.session * 0x100_0000;
  }

  lemma HeaderRoundTrip(h: Header)
    ensures ReadHeader(HeaderBytes(h)) == h
  {
    Unwire64Wire64(HeaderWord(h));
    HeaderOverlay(h);
  }
}
