/**
 The separately written length functions. Each works in 16-bit arithmetic and is proved to give
 the size of what the codec writes, modulo 2^16; the frame header is built from it.
 */
module Lengths {
  import opened Words
  import opened Messages
  import opened Codec
  import opened RoundTrip
  import opened Archives

  // A length as a uint16_t keeps it.
  function Low16(n: nat): U16 { n % 0x1_0000 }

  lemma LowSmall(n: U16)
    ensures Low16(n) == n
  {
  }

  // rv += x on a uint16_t: when rv stands for a and x for b, the result stands for a + b.
  function Plus16(rv: U16, x: nat, ghost a: nat, ghost b: nat): (s: U16)
    requires rv == Low16(a) && Low16(x) == Low16(b)
    ensures s == Low16(a + b)
  {
    SumLow(a, b);
    SumLow(rv, x);
    LowSmall(rv);
    (rv + x) % 0x1_0000
  }

  lemma SumLow(a: nat, b: nat)
    ensures Low16(a + b) == Low16(Low16(a) + Low16(b))
  {
  }

  lemma {:induction false} ManySize<T>(put: T -> Layout, v: seq<T>, k: nat)
    requires forall x :: x in v ==> |Flat(put(x))| == k
    ensures |Flat(PutMany(put, v))| == k * |v|
  {
    if v != [] {
      var n := |v| - 1;
      assert v[n] in v;
      ManySize(put, v[..n], k);
    }
  }

  function StrArchiveLen(s: Str): (r: U16)
    ensures r == Low16(|Flat(PutString(s))|) == Low16(r)
  {
    StringSize(s);
    (2 + |s|) % 0x1_0000
  }

  method StrArrArchiveLen(v: seq<Str>) returns (r: U16)
    ensures r == Low16(|Flat(PutVec(PutString, v))|)
  {
    r := 2;
    for i := 0 to |v|
      invariant r == Low16(2 + |Flat(PutMany(PutString, v[..i]))|)
    {
      assert v[..i + 1][..i] == v[..i];
      StringSize(v[i]);
      ghost var sum := 2 + |Flat(PutMany(PutString, v[..i]))|;
      r := Plus16(r, |v[i]| + 2, sum, |v[i]| + 2);
    }
    assert v[..|v|] == v;
  }

  // size is sizeof(T), the width that the element operator writes.
  function NumArrArchiveLen<T(!new)>(size: nat, v: seq<T>, ghost put: T -> Layout): (r: U16)
    requires forall x :: |Flat(put(x))| == size
    ensures r == Low16(|Flat(PutVec(put, v))|) == Low16(r)
  {
    VecSize(put, v);
    ManySize(put, v, size);
    (2 + size * |v|) % 0x1_0000
  }

  lemma MenuItemSize(i: MenuItem)
    ensures |Flat(PutMenuItem(i))| == 4 + |i.val|
  {
    StringSize(i.val);
  }

  method MenuLen(v: seq<MenuItem>) returns (r: U16)
    ensures r == Low16(|Flat(PutVec(PutMenuItem, v))|)
  {
    r := 2;
    for i := 0 to |v|
      invariant r == Low16(2 + |Flat(PutMany(PutMenuItem, v[..i]))|)
    {
      assert v[..i + 1][..i] == v[..i];
      MenuItemSize(v[i]);
      hide PutMenuItem;
      ghost var sum := 2 + |Flat(PutMany(PutMenuItem, v[..i]))|;
      StringSize(v[i].val);
      r := Plus16(r, StrArchiveLen(v[i].val), sum, 2 + |v[i].val|);
      r := Plus16(r, 2, sum + 2 + |v[i].val|, 2);
    }
    assert v[..|v|] == v;
  }

  lemma UpdatesSize<T>(put: T -> Layout, v: seq<Update<T>>, k: nat)
    requires forall x :: |Flat(put(x))| == k
    ensures |Flat(PutUpdates(put, v))| == (2 + k) * |v|
  {
    ManySize(PutU16, Indexes(v), 2);
    ManySize(put, Values(v), k);
  }

  lemma DeltaSize(d: Delta)
    ensures |Flat(PutDelta(d))| == 4 + (2 + |d.symbol|) + 6 * |d.ints| + 10 * |d.dbls| + 8 * |d.stamps|
  {
    UpdatesSize(PutI32, d.ints, 4);
    UpdatesSize(PutU64, d.dbls, 8);
    ManySize(PutU64, d.stamps, 8);
    StringSize(d.symbol);
    assert |Flat(PutU32(SizeWord(d)))| == 4;
    DeltaFrame(d, []);
    hide PutString, PutU32, PutUpdates, PutMany, PutDelta, SizeWord;
    assert Flat(PutDelta(d)) + [] == Flat(PutDelta(d));
  }

  method DeltaLen(d: Delta) returns (r: U16)
    ensures r == Low16(|Flat(PutDelta(d))|)
  {
    DeltaSize(d);
    StringSize(d.symbol);
    hide PutDelta;
    ghost var sum := 4;
    r := 4;
    r := Plus16(r, StrArchiveLen(d.symbol), sum, 2 + |d.symbol|);
    sum := sum + 2 + |d.symbol|;
    r := Plus16(r, 6 * |d.ints|, sum, 6 * |d.ints|);
    sum := sum + 6 * |d.ints|;
    r := Plus16(r, 10 * |d.dbls|, sum, 10 * |d.dbls|);
    sum := sum + 10 * |d.dbls|;
    r := Plus16(r, 8 * |d.stamps|, sum, 8 * |d.stamps|);
  }

  lemma BitsSize(s: set<FieldIndex>)
    ensures |Flat(PutBits(s))| == 2 + 2 * |s|
  {
    FieldCount(s);
    ManySize<U16>(PutU16, Fields(s), 2);
  }

  lemma FieldsSize<T>(put: T -> Layout, m: map<FieldIndex, T>, k: nat)
    requires forall x :: |Flat(put(x))| == k
    ensures |Flat(PutFields(put, m))| == k * |m.Keys|
  {
    FieldCount(m.Keys);
    ManySize(put, Pick(m, Fields(m.Keys)), k);
  }

  // The part of the length that does not depend on the strings.
  method RefFixedLen(d: RefData) returns (r: U16)
    ensures r == Low16(FixedSize(d))
  {
    var ni, nd, ns := |d.ints.Keys|, |d.dbls.Keys|, |d.strs.Keys|;
    ghost var sum := 2 + |d.symbol|;
    StringSize(d.symbol);
    r := StrArchiveLen(d.symbol);
    r := Plus16(r, 2 + ni * 2, sum, 2 + ni * 2);
    sum := sum + 2 + ni * 2;
    r := Plus16(r, 2 + nd * 2, sum, 2 + nd * 2);
    sum := sum + 2 + nd * 2;
    r := Plus16(r, 2 + ns * 2, sum, 2 + ns * 2);
    sum := sum + 2 + ns * 2;
    r := Plus16(r, 4 * ni, sum, 4 * ni);
    sum := sum + 4 * ni;
    r := Plus16(r, 8 * nd, sum, 8 * nd);
  }

  // What the strings at indexes below i take up.
  ghost function StringsSize(m: map<FieldIndex, Str>, i: nat): nat
    requires i <= SNAPSHOT_FIELDS_NUM
  {
    |Flat(PutMany(PutString, Pick(m, Ascending(m.Keys, i))))|
  }

  lemma StringsSizeStep(m: map<FieldIndex, Str>, i: FieldIndex)
    ensures StringsSize(m, i + 1) == StringsSize(m, i) + if i in m then 2 + |m[i]| else 0
  {
    if i in m {
      PickStep(m, i);
      StringSize(m[i]);
    } else {
      assert Ascending(m.Keys, i + 1) == Ascending(m.Keys, i);
    }
  }

  lemma StringsSizeAll(m: map<FieldIndex, Str>, n: nat)
    requires n == SNAPSHOT_FIELDS_NUM
    ensures StringsSize(m, n) == |Flat(PutFields(PutString, m))|
  {
  }

  // r is the length of what comes before, a bytes, and of the strings at indexes below i.
  ghost predicate LenSoFar(m: map<FieldIndex, Str>, a: nat, i: nat, r: U16)
    requires i <= SNAPSHOT_FIELDS_NUM
  {
    r == Low16(a + StringsSize(m, i))
  }

  lemma LenStart(m: map<FieldIndex, Str>, a: nat)
    ensures LenSoFar(m, a, 0, Low16(a))
  {
    assert StringsSize(m, 0) == 0;
  }

  function AddString(r: U16, s: Str): U16 {
    (r + (2 + |s|)) % 0x1_0000
  }

  lemma LenStep(m: map<FieldIndex, Str>, a: nat, i: FieldIndex, r: U16)
    requires LenSoFar(m, a, i, r)
    ensures LenSoFar(m, a, i + 1, if i in m then AddString(r, m[i]) else r)
  {
    StringsSizeStep(m, i);
    if i in m {
      assert AddString(r, m[i]) == Plus16(r, 2 + |m[i]|, a + StringsSize(m, i), 2 + |m[i]|);
      hide StringsSize, Plus16, AddString;
    }
  }

  lemma LenEnd(m: map<FieldIndex, Str>, a: nat, n: nat, r: U16)
    requires n == SNAPSHOT_FIELDS_NUM && LenSoFar(m, a, n, r)
    ensures r == Low16(a + |Flat(PutFields(PutString, m))|)
  {
    StringsSizeAll(m, n);
  }

  method StringsLen(m: map<FieldIndex, Str>, before: U16, ghost a: nat) returns (r: U16)
    requires before == Low16(a)
    ensures r == Low16(a + |Flat(PutFields(PutString, m))|)
  {
    r := before;
    LenStart(m, a);
    hide LenSoFar, AddString, PutFields;
    for i := 0 to SNAPSHOT_FIELDS_NUM
      invariant LenSoFar(m, a, i, r)
    {
      LenStep(m, a, i, r);
      if i in m {
        r := AddString(r, m[i]);
      }
    }
    LenEnd(m, a, SNAPSHOT_FIELDS_NUM, r);
  }

  method RefLen(d: RefData) returns (r: U16)
    ensures r == Low16(|Flat(PutRef(d))|)
  {
    r := RefFixedLen(d);
    r := StringsLen(d.strs, r, FixedSize(d));
    RefSize(d);
  }

  ghost function FixedSize(d: RefData): nat {
    2 + |d.symbol| + (2 + 2 * |d.ints.Keys|) + (2 + 2 * |d.dbls.Keys|) + (2 + 2 * |d.strs.Keys|) +
    4 * |d.ints.Keys| + 8 * |d.dbls.Keys|
  }

  lemma RefSize(d: RefData)
    ensures |Flat(PutRef(d))| == FixedSize(d) + |Flat(PutFields(PutString, d.strs))|
  {
    StringSize(d.symbol);
    BitsSize(d.ints.Keys);
    BitsSize(d.dbls.Keys);
    BitsSize(d.strs.Keys);
    FieldsSize(PutI32, d.ints, 4);
    FieldsSize(PutU64, d.dbls, 8);
    hide PutString, PutBits, PutFields;
    RefFrame(d, []);
    assert Flat(PutRef(d)) + [] == Flat(PutRef(d));
  }

  method CtxAndVecLen<T(!new)>(ctx: Str, size: nat, v: seq<T>, ghost put: T -> Layout) returns (r: U16)
    requires forall x :: |Flat(put(x))| == size
    ensures r == Low16(|Flat(Then(PutString(ctx), PutVec(put, v)))|)
  {
    ghost var first, second := |Flat(PutString(ctx))|, |Flat(PutVec(put, v))|;
    assert |Flat(Then(PutString(ctx), PutVec(put, v)))| == first + second;
    r := StrArchiveLen(ctx);
    r := Plus16(r, NumArrArchiveLen(size, v, put), first, second);
  }

  method NumVecLen(m: Msg) returns (r: U16)
    requires m.IntVec? || m.ByteVec? || m.DoubleVec?
    ensures r == Low16(|Payload(m)|)
  {
    match m
    case IntVec(ctx, ints) => r := CtxAndVecLen(ctx, 4, ints, PutU32);
    case ByteVec(ctx, bytes) => r := CtxAndVecLen(ctx, 1, bytes, PutU8);
    case DoubleVec(ctx, dbls) => r := CtxAndVecLen(ctx, 8, dbls, PutU64);
  }

  lemma SessionSize(m: Msg)
    requires m.Login? || m.LoginReply? || m.Command?
    ensures |Payload(m)| == |Flat(PutVec(PutString, m.params))| +
      match m {
        case Login(_, user, token, _) => 2 + (2 + |user|) + (2 + |token|)
        case LoginReply(_, _, desc, _) => 4 + (2 + |desc|)
        case Command(_, ctx, _) => 1 + (2 + |ctx|)
      }
  {
    var params := PutVec(PutString, m.params);
    match m
    case Login(version, user, token, _) =>
      StringSize(user);
      StringSize(token);
      assert |Flat(PutU16(version))| == 2;
      hide PutString, PutVec, PutU16;
      assert Payload(m) == Flat(PutU16(version)) + Flat(Then(PutString(user), Then(PutString(token), params)));
    case LoginReply(version, code, desc, _) =>
      StringSize(desc);
      assert |Flat(PutU16(version))| == 2 && |Flat(PutU16(code))| == 2;
      hide PutString, PutVec, PutU16;
      assert Payload(m) == Flat(PutU16(version)) + Flat(Then(PutU16(code), Then(PutString(desc), params)));
      assert |Flat(Then(PutString(desc), params))| == 2 + |desc| + |Flat(params)|;
    case Command(cmd, ctx, _) =>
      StringSize(ctx);
      assert |Flat(PutU8(cmd))| == 1;
      hide PutString, PutVec, PutU8;
      assert Payload(m) == Flat(PutU8(cmd)) + Flat(Then(PutString(ctx), params));
  }

  method SessionLen(m: Msg) returns (r: U16)
    requires m.Login? || m.LoginReply? || m.Command?
    ensures r == Low16(|Payload(m)|)
  {
    hide Low16, Plus16, StrArchiveLen;
    var params := StrArrArchiveLen(m.params);
    LowSmall(params);
    ghost var ps := |Flat(PutVec(PutString, m.params))|;
    SessionSize(m);
    hide Payload;
    match m
    case Login(_, user, token, _) =>
      assert Low16(2) == 2 by { LowSmall(2); }
      StringSize(user);
      StringSize(token);
      r := 2;
      r := Plus16(r, StrArchiveLen(user), 2, 2 + |user|);
      r := Plus16(r, StrArchiveLen(token), 4 + |user|, 2 + |token|);
      r := Plus16(r, params, 6 + |user| + |token|, ps);
    case LoginReply(_, _, desc, _) =>
      assert Low16(4) == 4 by { LowSmall(4); }
      StringSize(desc);
      r := 4;
      r := Plus16(r, StrArchiveLen(desc), 4, 2 + |desc|);
      r := Plus16(r, params, 6 + |desc|, ps);
    case Command(_, ctx, _) =>
      assert Low16(1) == 1 by { LowSmall(1); }
      StringSize(ctx);
      r := 1;
      r := Plus16(r, StrArchiveLen(ctx), 1, 2 + |ctx|);
      r := Plus16(r, params, 3 + |ctx|, ps);
  }

  /** calc_len of every message type is the size of its encoding, modulo 2^16. */
  method CalcLen(m: Msg) returns (r: U16)
    ensures r == Low16(|Payload(m)|)
  {
    hide PutVec, PutRef, PutDelta;
    match m
    case Login(_, _, _, _) => r := SessionLen(m);
    case LoginReply(_, _, _, _) => r := SessionLen(m);
    case Text(text) =>
      StringSize(text);
      r := StrArchiveLen(text);
    case Heartbeat(_) => r := 4;
    case Subscribe(symbols) => r := StrArrArchiveLen(symbols);
    case MdRef(ref) => r := RefLen(ref);
    case MdDeltaMsg(delta) => r := DeltaLen(delta);
    case Menu(menu) => r := MenuLen(menu);
    case IntVec(_, _) => r := NumVecLen(m);
    case ByteVec(_, _) => r := NumVecLen(m);
    case DoubleVec(_, _) => r := NumVecLen(m);
    case Command(_, _, _) => r := SessionLen(m);
  }
}
