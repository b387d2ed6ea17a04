/**
 Every encoding is self-delimiting: parsing it gives the value back and leaves exactly the
 bytes that followed it.
 */
module RoundTrip {
  import opened Words
  import opened Messages
  import opened Codec

  ghost predicate Inverts<T(!new)>(put: T -> Layout, get: Bytes -> Parsed<T>, x: T) {
    forall r: Bytes :: get(Flat(put(x)) + r) == Got(x, r)
  }

  // ---------- primitives ----------

  lemma TakeFront(b: Bytes, r: Bytes)
    ensures GetBytes(|b|, b + r) == Got(b, r)
  {
    assert (b + r)[..|b|] == b && (b + r)[|b|..] == r;
  }

  lemma U16Back(v: U16, r: Bytes)
    ensures GetU16(Flat(PutU16(v)) + r) == Got(v, r)
  {
    U16RoundTrip(v);
  }

  lemma U32Back(v: U32, r: Bytes)
    ensures GetU32(Flat(PutU32(v)) + r) == Got(v, r)
  {
    U32RoundTrip(v);
  }

  lemma StringBack(s: Str, r: Bytes)
    requires |s| < 0x1_0000
    ensures GetString(Flat(PutString(s)) + r) == Got(s, r)
  {
    StringRoundTrip(s);
  }

  lemma StringSize(s: Str)
    ensures |Flat(PutString(s))| == 2 + |s|
  {
  }

  lemma U8RoundTrip(v: Byte)
    ensures Inverts(PutU8, GetU8, v)
  {
    forall r: Bytes ensures GetU8(Flat(PutU8(v)) + r) == Got(v, r) {
      TakeFront([v], r);
    }
  }

  lemma U16RoundTrip(v: U16)
    ensures Inverts(PutU16, GetU16, v)
  {
    forall r: Bytes ensures GetU16(Flat(PutU16(v)) + r) == Got(v, r) {
      TakeFront(Wire16(v), r);
    }
  }

  lemma U32RoundTrip(v: U32)
    ensures Inverts(PutU32, GetU32, v)
  {
    Unwire32Wire32(v);
    forall r: Bytes ensures GetU32(Flat(PutU32(v)) + r) == Got(v, r) {
      TakeFront(Wire32(v), r);
    }
  }

  lemma U64RoundTrip(v: U64)
    ensures Inverts(PutU64, GetU64, v)
  {
    Unwire64Wire64(v);
    forall r: Bytes ensures GetU64(Flat(PutU64(v)) + r) == Got(v, r) {
      TakeFront(Wire64(v), r);
    }
  }

  lemma I32RoundTrip(v: I32)
    ensures Inverts(PutI32, GetI32, v)
  {
    assert Signed(Pattern(v)) == v;
    U32RoundTrip(Pattern(v));
    forall r: Bytes ensures GetI32(Flat(PutI32(v)) + r) == Got(v, r) {
      assert GetU32(Flat(PutU32(Pattern(v))) + r) == Got(Pattern(v), r);
    }
  }

  lemma StringRoundTrip(s: Str)
    requires |s| < 0x1_0000
    ensures Inverts(PutString, GetString, s)
  {
    U16RoundTrip(|s|);
    forall r: Bytes ensures GetString(Flat(PutString(s)) + r) == Got(s, r) {
      assert Flat(PutString(s)) + r == Flat(PutU16(|s|)) + (s + r);
      TakeFront(s, r);
    }
  }

  // ---------- vectors ----------

  lemma {:induction false} ManyFromFront<T>(put: T -> Layout, v: seq<T>)
    requires v != []
    ensures Flat(PutMany(put, v)) == Flat(put(v[0])) + Flat(PutMany(put, v[1..]))
  {
    var n := |v| - 1;
    if n > 0 {
      ManyFromFront(put, v[..n]);
      assert v[..n][1..] == v[1..][..n - 1];
    }
  }

  lemma {:induction false} ManyRoundTrip<T(!new)>(put: T -> Layout, get: Bytes -> Parsed<T>, v: seq<T>, r: Bytes)
    requires forall x :: x in v ==> Inverts(put, get, x)
    ensures GetMany(get, |v|, Flat(PutMany(put, v)) + r) == Got(v, r)
  {
    if v == [] {
      assert [] + r == r;
    } else {
      ManyFromFront(put, v);
      var rest := Flat(PutMany(put, v[1..])) + r;
      assert Flat(PutMany(put, v)) + r == Flat(put(v[0])) + rest;
      assert v[0] in v;
      assert get(Flat(put(v[0])) + rest) == Got(v[0], rest);
      ManyRoundTrip(put, get, v[1..], r);
      assert v == [v[0]] + v[1..];
    }
  }

  lemma VecRoundTrip<T(!new)>(put: T -> Layout, get: Bytes -> Parsed<T>, v: seq<T>, r: Bytes)
    requires |v| < 0x1_0000
    requires forall x :: x in v ==> Inverts(put, get, x)
    ensures GetVec(get, Flat(PutVec(put, v)) + r) == Got(v, r)
  {
    var rest := Flat(PutMany(put, v)) + r;
    ManyRoundTrip(put, get, v, r);
    VecFrame(put, v, r);
    U16Back(|v|, rest);
  }

  lemma VecFrame<T>(put: T -> Layout, v: seq<T>, r: Bytes)
    requires |v| < 0x1_0000
    ensures Flat(PutVec(put, v)) + r == Flat(PutU16(|v|)) + (Flat(PutMany(put, v)) + r)
  {
    hide PutU16, PutMany;
    Assoc(Flat(PutU16(|v|)), Flat(PutMany(put, v)), r);
  }

  lemma VecSize<T>(put: T -> Layout, v: seq<T>)
    ensures |Flat(PutVec(put, v))| == 2 + |Flat(PutMany(put, v))|
  {
  }

  // Every string of the vector is part of the encoding, so short enough for its length field.
  lemma {:induction false} ManyBound<T>(put: T -> Layout, v: seq<T>, x: T)
    requires x in v
    ensures |Flat(put(x))| <= |Flat(PutMany(put, v))|
  {
    var n := |v| - 1;
    if x != v[n] {
      assert v == v[..n] + [v[n]];
      ManyBound(put, v[..n], x);
    }
  }

  lemma {:induction false} ManyCount<T>(put: T -> Layout, v: seq<T>)
    requires forall x :: x in v ==> |Flat(put(x))| > 0
    ensures |v| <= |Flat(PutMany(put, v))|
  {
    if v != [] {
      assert v[|v| - 1] in v;
      ManyCount(put, v[..|v| - 1]);
    }
  }

  lemma StringsRoundTrip(v: seq<Str>, r: Bytes)
    requires |Flat(PutVec(PutString, v))| < 0x1_0000
    ensures GetVec(GetString, Flat(PutVec(PutString, v)) + r) == Got(v, r)
  {
    forall s | s in v ensures Inverts(PutString, GetString, s) {
      ManyBound(PutString, v, s);
      StringRoundTrip(s);
    }
    ManyCount(PutString, v);
    VecRoundTrip(PutString, GetString, v, r);
  }

  lemma MenuItemRoundTrip(i: MenuItem)
    requires |i.val| < 0x1_0000
    ensures Inverts(PutMenuItem, GetMenuItem, i)
  {
    U16RoundTrip(i.idx);
    StringRoundTrip(i.val);
    forall r: Bytes ensures GetMenuItem(Flat(PutMenuItem(i)) + r) == Got(i, r) {
      var rest := Flat(PutString(i.val)) + r;
      assert Flat(PutMenuItem(i)) + r == Flat(PutU16(i.idx)) + rest;
      assert GetU16(Flat(PutU16(i.idx)) + rest) == Got(i.idx, rest);
      assert GetString(rest) == Got(i.val, r);
    }
  }

  lemma MenuRoundTrip(v: seq<MenuItem>, r: Bytes)
    requires |Flat(PutVec(PutMenuItem, v))| < 0x1_0000
    ensures GetVec(GetMenuItem, Flat(PutVec(PutMenuItem, v)) + r) == Got(v, r)
  {
    forall i | i in v ensures Inverts(PutMenuItem, GetMenuItem, i) {
      ManyBound(PutMenuItem, v, i);
      assert |i.val| <= |Flat(PutString(i.val))| <= |Flat(PutMenuItem(i))|;
      MenuItemRoundTrip(i);
    }
    ManyCount(PutMenuItem, v);
    VecRoundTrip(PutMenuItem, GetMenuItem, v, r);
  }

  lemma NumVecRoundTrip<T(!new)>(put: T -> Layout, get: Bytes -> Parsed<T>, ctx: Str, v: seq<T>, r: Bytes)
    requires |Flat(Then(PutString(ctx), PutVec(put, v)))| < 0x1_0000
    requires forall x :: x in v ==> Inverts(put, get, x) && |Flat(put(x))| > 0
    ensures GetNumVec(get, Flat(Then(PutString(ctx), PutVec(put, v))) + r) == Got((ctx, v), r)
  {
    var rest := Flat(PutVec(put, v)) + r;
    StringSize(ctx);
    VecSize(put, v);
    ManyCount(put, v);
    Assoc(Flat(PutString(ctx)), Flat(PutVec(put, v)), r);
    StringBack(ctx, rest);
    hide GetString, GetVec, PutString, PutVec;
    VecRoundTrip(put, get, v, r);
  }

  // ---------- deltas ----------

  lemma UpdatesRoundTrip<T(!new)>(put: T -> Layout, get: Bytes -> Parsed<T>, v: seq<Update<T>>, r: Bytes)
    requires forall x :: Inverts(put, get, x)
    ensures GetUpdates(get, |v|, Flat(PutUpdates(put, v)) + r) == Got(v, r)
  {
    var rest := Flat(PutMany(put, Values(v))) + r;
    assert Flat(PutUpdates(put, v)) + r == Flat(PutMany(PutU16, Indexes(v))) + rest;
    forall x | x in Indexes(v) ensures Inverts(PutU16, GetU16, x) { U16RoundTrip(x); }
    ManyRoundTrip(PutU16, GetU16, Indexes(v), rest);
    ManyRoundTrip(put, get, Values(v), r);
    assert Zip(Indexes(v), Values(v)) == v;
  }

  lemma SizeWordSplits(d: Delta)
    ensures var w := SizeWord(d);
            w % 0x100 == |d.ints| && w / 0x100 % 0x100 == |d.dbls| &&
            w / 0x1_0000 % 0x100 == d.reserved && w / 0x100_0000 == |d.stamps|
  {
    var w := SizeWord(d);
    assert w / 0x100_0000 == |d.stamps|;
    assert w / 0x1_0000 == d.reserved + |d.stamps| * 0x100;
    assert w / 0x100 == |d.dbls| + d.reserved * 0x100 + |d.stamps| * 0x1_0000;
  }

  lemma DeltaFrame(d: Delta, r: Bytes)
    ensures Flat(PutDelta(d)) + r ==
            Flat(PutString(d.symbol)) + (Flat(PutU32(SizeWord(d))) + (Flat(PutUpdates(PutI32, d.ints)) +
            (Flat(PutUpdates(PutU64, d.dbls)) + (Flat(PutMany(PutU64, d.stamps)) + r))))
  {
    var stamps := PutMany(PutU64, d.stamps);
    var dbls := Then(PutUpdates(PutU64, d.dbls), stamps);
    var ints := Then(PutUpdates(PutI32, d.ints), dbls);
    var size := Then(PutU32(SizeWord(d)), ints);
    Assoc(Flat(PutString(d.symbol)), Flat(size), r);
    Assoc(Flat(PutU32(SizeWord(d))), Flat(ints), r);
    Assoc(Flat(PutUpdates(PutI32, d.ints)), Flat(dbls), r);
    Assoc(Flat(PutUpdates(PutU64, d.dbls)), Flat(stamps), r);
  }

  lemma DeltaRoundTrip(d: Delta, r: Bytes)
    requires |d.symbol| < 0x1_0000
    ensures GetDelta(Flat(PutDelta(d)) + r) == Got(d, r)
  {
    var r3 := Flat(PutMany(PutU64, d.stamps)) + r;
    var r2 := Flat(PutUpdates(PutU64, d.dbls)) + r3;
    var r1 := Flat(PutUpdates(PutI32, d.ints)) + r2;
    var r0 := Flat(PutU32(SizeWord(d))) + r1;
    assert Flat(PutDelta(d)) + r == Flat(PutString(d.symbol)) + r0 by {
      DeltaFrame(d, r);
    }
    StringBack(d.symbol, r0);
    U32Back(SizeWord(d), r1);
    SizeWordSplits(d);
    forall x ensures Inverts(PutI32, GetI32, x) { I32RoundTrip(x); }
    forall x ensures Inverts(PutU64, GetU64, x) { U64RoundTrip(x); }
    UpdatesRoundTrip(PutI32, GetI32, d.ints, r2);
    UpdatesRoundTrip(PutU64, GetU64, d.dbls, r3);
    ManyRoundTrip(PutU64, GetU64, d.stamps, r);
  }

  // ---------- reference data ----------

  lemma {:induction false} AscendingCount(s: set<FieldIndex>, n: nat)
    requires n <= SNAPSHOT_FIELDS_NUM
    ensures |Ascending(s, n)| == |set k | k in s && k < n|
  {
    if n == 0 {
      assert (set k | k in s && k < n) == {};
    } else {
      AscendingCount(s, n - 1);
      var below := set k | k in s && k < n - 1;
      assert (set k | k in s && k < n) == if n - 1 in s then below + {n - 1} else below;
    }
  }

  lemma {:induction false} AscendingLength(s: set<FieldIndex>, n: nat)
    requires n <= SNAPSHOT_FIELDS_NUM
    ensures |Ascending(s, n)| <= n
  {
    if n > 0 { AscendingLength(s, n - 1); }
  }

  /** bitset::count() is the number of indexes that the following loop writes. */
  lemma FieldCount(s: set<FieldIndex>)
    ensures |Fields(s)| == |s| <= SNAPSHOT_FIELDS_NUM
  {
    AscendingCount(s, SNAPSHOT_FIELDS_NUM);
    AscendingLength(s, SNAPSHOT_FIELDS_NUM);
    assert (set k | k in s && k < SNAPSHOT_FIELDS_NUM) == s;
  }

  lemma BitsRoundTrip(s: set<FieldIndex>, r: Bytes)
    ensures GetBits(Flat(PutBits(s)) + r) == Got(s, r)
  {
    FieldCount(s);
    var f: seq<U16> := Fields(s);
    forall x | x in f ensures Inverts(PutU16, GetU16, x) { U16RoundTrip(x); }
    VecRoundTrip(PutU16, GetU16, f, r);
    assert (set k: FieldIndex | k in f) == s;
  }

  lemma {:induction false} ToMapPick<T>(m: map<FieldIndex, T>, ks: seq<FieldIndex>)
    requires forall k :: k in ks ==> k in m
    ensures ToMap(ks, Pick(m, ks)).Keys == set k | k in ks
    ensures forall k :: k in ks ==> ToMap(ks, Pick(m, ks))[k] == m[k]
  {
    if ks != [] {
      var n := |ks| - 1;
      ToMapPick(m, ks[..n]);
      assert Pick(m, ks)[..n] == Pick(m, ks[..n]);
      var before := ToMap(ks[..n], Pick(m, ks[..n]));
      assert ToMap(ks, Pick(m, ks)) == before[ks[n] := m[ks[n]]];
      hide ToMap, Pick;
      assert forall k :: k in ks <==> k in ks[..n] || k == ks[n] by {
        assert ks == ks[..n] + [ks[n]];
      }
    }
  }

  lemma FieldsRoundTrip<T(!new)>(put: T -> Layout, get: Bytes -> Parsed<T>, m: map<FieldIndex, T>, r: Bytes)
    requires forall k :: k in m ==> Inverts(put, get, m[k])
    ensures GetFields(get, m.Keys, Flat(PutFields(put, m)) + r) == Got(m, r)
  {
    var f := Fields(m.Keys);
    var v := Pick(m, f);
    forall x | x in v ensures Inverts(put, get, x) {
      var i :| 0 <= i < |v| && v[i] == x;
      assert f[i] in m;
    }
    ManyRoundTrip(put, get, v, r);
    ToMapPick(m, f);
    assert ToMap(f, v) == m;
  }

  lemma RefFrame(d: RefData, r: Bytes)
    ensures Flat(PutRef(d)) + r ==
            Flat(PutString(d.symbol)) + (Flat(PutBits(d.ints.Keys)) + (Flat(PutBits(d.dbls.Keys)) +
            (Flat(PutBits(d.strs.Keys)) + (Flat(PutFields(PutI32, d.ints)) +
            (Flat(PutFields(PutU64, d.dbls)) + (Flat(PutFields(PutString, d.strs)) + r))))))
  {
    var strs := PutFields(PutString, d.strs);
    var dbls := Then(PutFields(PutU64, d.dbls), strs);
    var ints := Then(PutFields(PutI32, d.ints), dbls);
    var s := Then(PutBits(d.strs.Keys), ints);
    var sd := Then(PutBits(d.dbls.Keys), s);
    var sid := Then(PutBits(d.ints.Keys), sd);
    Assoc(Flat(PutString(d.symbol)), Flat(sid), r);
    Assoc(Flat(PutBits(d.ints.Keys)), Flat(sd), r);
    Assoc(Flat(PutBits(d.dbls.Keys)), Flat(s), r);
    Assoc(Flat(PutBits(d.strs.Keys)), Flat(ints), r);
    Assoc(Flat(PutFields(PutI32, d.ints)), Flat(dbls), r);
    Assoc(Flat(PutFields(PutU64, d.dbls)), Flat(strs), r);
  }

  lemma RefRoundTrip(d: RefData, r: Bytes)
    requires |d.symbol| < 0x1_0000
    requires forall k :: k in d.strs ==> |d.strs[k]| < 0x1_0000
    ensures GetRef(Flat(PutRef(d)) + r) == Got(d, r)
  {
    var r5 := Flat(PutFields(PutString, d.strs)) + r;
    var r4 := Flat(PutFields(PutU64, d.dbls)) + r5;
    var r3 := Flat(PutFields(PutI32, d.ints)) + r4;
    var r2 := Flat(PutBits(d.strs.Keys)) + r3;
    var r1 := Flat(PutBits(d.dbls.Keys)) + r2;
    var r0 := Flat(PutBits(d.ints.Keys)) + r1;
    assert Flat(PutRef(d)) + r == Flat(PutString(d.symbol)) + r0 by {
      RefFrame(d, r);
    }
    StringBack(d.symbol, r0);
    BitsRoundTrip(d.ints.Keys, r1);
    BitsRoundTrip(d.dbls.Keys, r2);
    BitsRoundTrip(d.strs.Keys, r3);
    forall k | k in d.ints ensures Inverts(PutI32, GetI32, d.ints[k]) { I32RoundTrip(d.ints[k]); }
    FieldsRoundTrip(PutI32, GetI32, d.ints, r4);
    forall k | k in d.dbls ensures Inverts(PutU64, GetU64, d.dbls[k]) { U64RoundTrip(d.dbls[k]); }
    FieldsRoundTrip(PutU64, GetU64, d.dbls, r5);
    forall k | k in d.strs ensures Inverts(PutString, GetString, d.strs[k]) { StringRoundTrip(d.strs[k]); }
    FieldsRoundTrip(PutString, GetString, d.strs, r);
  }

  lemma RefStringsBound(d: RefData, k: FieldIndex)
    requires k in d.strs
    ensures |d.strs[k]| <= |Flat(PutRef(d))|
  {
    var ks := Fields(d.strs.Keys);
    var i :| 0 <= i < |ks| && ks[i] == k;
    var v := Pick(d.strs, ks);
    assert v[i] == d.strs[k];
    ManyBound(PutString, v, d.strs[k]);
    assert |d.strs[k]| <= |Flat(PutString(d.strs[k]))|;
    RefFrame(d, []);
    assert Flat(PutRef(d)) + [] == Flat(PutRef(d));
  }

  // ---------- whole messages ----------

  lemma LoginRoundTrip(m: Msg, r: Bytes)
    requires m.Login? && |Payload(m)| < 0x1_0000
    ensures GetLogin(Payload(m) + r) == Got(m, r)
  {
    var params := PutVec(PutString, m.params);
    var token := Then(PutString(m.token), params);
    var user := Then(PutString(m.user), token);
    Assoc(Flat(PutU16(m.version)), Flat(user), r);
    Assoc(Flat(PutString(m.user)), Flat(token), r);
    Assoc(Flat(PutString(m.token)), Flat(params), r);
    StringSize(m.user);
    StringSize(m.token);
    U16Back(m.version, Flat(user) + r);
    StringBack(m.user, Flat(token) + r);
    StringBack(m.token, Flat(params) + r);
    StringsRoundTrip(m.params, r);
  }

  lemma LoginReplyRoundTrip(m: Msg, r: Bytes)
    requires m.LoginReply? && |Payload(m)| < 0x1_0000
    ensures GetLoginReply(Payload(m) + r) == Got(m, r)
  {
    var params := PutVec(PutString, m.params);
    var desc := Then(PutString(m.desc), params);
    var code := Then(PutU16(m.code), desc);
    Assoc(Flat(PutU16(m.version)), Flat(code), r);
    Assoc(Flat(PutU16(m.code)), Flat(desc), r);
    Assoc(Flat(PutString(m.desc)), Flat(params), r);
    U16Back(m.version, Flat(code) + r);
    StringSize(m.desc);
    U16Back(m.code, Flat(desc) + r);
    StringBack(m.desc, Flat(params) + r);
    StringsRoundTrip(m.params, r);
  }

  lemma CommandRoundTrip(m: Msg, r: Bytes)
    requires m.Command? && |Payload(m)| < 0x1_0000
    ensures GetCommand(Payload(m) + r) == Got(m, r)
  {
    var params := PutVec(PutString, m.params);
    var ctx := Then(PutString(m.ctx), params);
    Assoc(Flat(PutU8(m.cmd)), Flat(ctx), r);
    Assoc(Flat(PutString(m.ctx)), Flat(params), r);
    StringSize(m.ctx);
    U8RoundTrip(m.cmd);
    assert GetU8(Flat(PutU8(m.cmd)) + (Flat(ctx) + r)) == Got(m.cmd, Flat(ctx) + r);
    StringBack(m.ctx, Flat(params) + r);
    StringsRoundTrip(m.params, r);
  }

  lemma NumVecMsgRoundTrip(m: Msg, r: Bytes)
    requires m.IntVec? || m.ByteVec? || m.DoubleVec?
    requires |Payload(m)| < 0x1_0000
    ensures m.IntVec? ==> GetIntVec(Payload(m) + r) == Got(m, r)
    ensures m.ByteVec? ==> GetByteVec(Payload(m) + r) == Got(m, r)
    ensures m.DoubleVec? ==> GetDoubleVec(Payload(m) + r) == Got(m, r)
  {
    match m
    case IntVec(ctx, ints) =>
      forall x | x in ints ensures Inverts(PutU32, GetU32, x) { U32RoundTrip(x); }
      NumVecRoundTrip(PutU32, GetU32, ctx, ints, r);
    case ByteVec(ctx, bytes) =>
      forall x | x in bytes ensures Inverts(PutU8, GetU8, x) { U8RoundTrip(x); }
      NumVecRoundTrip(PutU8, GetU8, ctx, bytes, r);
    case DoubleVec(ctx, dbls) =>
      forall x | x in dbls ensures Inverts(PutU64, GetU64, x) { U64RoundTrip(x); }
      NumVecRoundTrip(PutU64, GetU64, ctx, dbls, r);
  }

  lemma RefMsgRoundTrip(m: Msg, r: Bytes)
    requires m.MdRef? && |Payload(m)| < 0x1_0000
    ensures GetMdRef(Payload(m) + r) == Got(m, r)
  {
    var ref := m.ref;
    forall k | k in ref.strs ensures |ref.strs[k]| < 0x1_0000 { RefStringsBound(ref, k); }
    StringSize(ref.symbol);
    hide GetRef;
    RefRoundTrip(ref, r);
  }

  lemma SymbolBound(d: Delta)
    ensures |Flat(PutString(d.symbol))| <= |Flat(PutDelta(d))|
  {
    hide PutString, PutU32, PutUpdates, PutMany, SizeWord;
  }

  lemma DeltaMsgRoundTrip(m: Msg, r: Bytes)
    requires m.MdDeltaMsg? && |Payload(m)| < 0x1_0000
    ensures GetMdDelta(Payload(m) + r) == Got(m, r)
  {
    StringSize(m.delta.symbol);
    SymbolBound(m.delta);
    assert Payload(m) == Flat(PutDelta(m.delta));
    hide GetDelta, PutDelta, Payload;
    DeltaRoundTrip(m.delta, r);
    assert GetMdDelta(Payload(m) + r) == Got(m, r);
  }

  /** Every message type: parsing its encoding followed by anything gives it back and stops at its end. */
  lemma MsgRoundTrip(m: Msg, r: Bytes)
    requires |Payload(m)| < 0x1_0000
    ensures GetMsg(MsgType(m), Payload(m) + r) == Got(m, r)
  {
    hide GetLogin, GetLoginReply, GetCommand, GetMdRef, GetMdDelta, GetIntVec, GetByteVec, GetDoubleVec,
         GetString, GetU32, GetVec, PutString, PutU16, PutU32, PutVec, PutRef, PutDelta;
    match m
    case Login(_, _, _, _) => LoginRoundTrip(m, r);
    case LoginReply(_, _, _, _) => LoginReplyRoundTrip(m, r);
    case Text(text) => StringSize(text); StringBack(text, r);
    case Heartbeat(counter) => U32Back(counter, r);
    case Subscribe(symbols) => StringsRoundTrip(symbols, r);
    case MdRef(_) => RefMsgRoundTrip(m, r);
    case MdDeltaMsg(_) => DeltaMsgRoundTrip(m, r);
    case Menu(menu) => MenuRoundTrip(menu, r);
    case IntVec(_, _) => NumVecMsgRoundTrip(m, r);
    case ByteVec(_, _) => NumVecMsgRoundTrip(m, r);
    case DoubleVec(_, _) => NumVecMsgRoundTrip(m, r);
    case Command(_, _, _) => CommandRoundTrip(m, r);
  }

  // ---------- the bytes on the wire ----------

  function StrImage(s: Str): Bytes {
    Wire16(|s| % 0x1_0000) + s
  }

  function StrImages(v: seq<Str>): Bytes {
    if v == [] then [] else StrImage(v[0]) + StrImages(v[1..])
  }

  function MenuImages(v: seq<MenuItem>): Bytes {
    if v == [] then [] else Wire16(v[0].idx) + StrImage(v[0].val) + MenuImages(v[1..])
  }

  lemma {:induction false} StringsImage(v: seq<Str>)
    ensures Flat(PutMany(PutString, v)) == StrImages(v)
  {
    hide PutString, StrImage;
    if v != [] {
      ManyFromFront(PutString, v);
      StringsImage(v[1..]);
      StringImage(v[0]);
    }
  }

  lemma StringImage(s: Str)
    ensures Flat(PutString(s)) == StrImage(s)
  {
  }

  lemma {:induction false} MenuImage(v: seq<MenuItem>)
    ensures Flat(PutMany(PutMenuItem, v)) == MenuImages(v)
  {
    hide PutString, StrImage;
    if v != [] {
      ManyFromFront(PutMenuItem, v);
      MenuImage(v[1..]);
      StringImage(v[0].val);
    }
  }

  /** The fields of a message in the order in which they are sent, a count of 16 bits before the elements
      of a vector and before the characters of a string. */
  lemma WireFormat(m: Msg)
    ensures match m
      case Login(version, user, token, params) =>
        Payload(m) == Wire16(version) + StrImage(user) + StrImage(token) + Wire16(|params| % 0x1_0000) + StrImages(params)
      case LoginReply(version, code, desc, params) =>
        Payload(m) == Wire16(version) + Wire16(code) + StrImage(desc) + Wire16(|params| % 0x1_0000) + StrImages(params)
      case Text(text) => Payload(m) == StrImage(text)
      case Heartbeat(counter) => Payload(m) == Wire32(counter)
      case Subscribe(symbols) => Payload(m) == Wire16(|symbols| % 0x1_0000) + StrImages(symbols)
      case Menu(menu) => Payload(m) == Wire16(|menu| % 0x1_0000) + MenuImages(menu)
      case Command(cmd, ctx, params) =>
        Payload(m) == [cmd] + StrImage(ctx) + Wire16(|params| % 0x1_0000) + StrImages(params)
      case IntVec(ctx, ints) =>
        Payload(m) == StrImage(ctx) + Wire16(|ints| % 0x1_0000) + Flat(PutMany(PutU32, ints))
      case ByteVec(ctx, bytes) =>
        Payload(m) == StrImage(ctx) + Wire16(|bytes| % 0x1_0000) + Flat(PutMany(PutU8, bytes))
      case DoubleVec(ctx, dbls) =>
        Payload(m) == StrImage(ctx) + Wire16(|dbls| % 0x1_0000) + Flat(PutMany(PutU64, dbls))
      case MdDeltaMsg(d) =>
        Payload(m) == StrImage(d.symbol) + [|d.stamps|, d.reserved, |d.dbls|, |d.ints|] +
          Flat(PutMany(PutU16, Indexes(d.ints))) + Flat(PutMany(PutI32, Values(d.ints))) +
          Flat(PutMany(PutU16, Indexes(d.dbls))) + Flat(PutMany(PutU64, Values(d.dbls))) + Flat(PutMany(PutU64, d.stamps))
      case MdRef(d) =>
        Payload(m) == StrImage(d.symbol) + Flat(PutBits(d.ints.Keys)) + Flat(PutBits(d.dbls.Keys)) + Flat(PutBits(d.strs.Keys)) +
          Flat(PutFields(PutI32, d.ints)) + Flat(PutFields(PutU64, d.dbls)) + Flat(PutFields(PutString, d.strs))
  {
    hide PutDelta, PutRef;
    match m
    case Login(_, _, _, _) => SessionImage(m);
    case LoginReply(_, _, _, _) => SessionImage(m);
    case Text(text) => StringImage(text);
    case Heartbeat(_) =>
    case Subscribe(symbols) =>
      StringsImage(symbols);
      VecImage(PutString, symbols);
    case Menu(menu) =>
      MenuImage(menu);
      VecImage(PutMenuItem, menu);
    case Command(_, _, _) => SessionImage(m);
    case IntVec(ctx, ints) => CtxImage(ctx, PutU32, ints);
    case ByteVec(ctx, bytes) => CtxImage(ctx, PutU8, bytes);
    case DoubleVec(ctx, dbls) => CtxImage(ctx, PutU64, dbls);
    case MdDeltaMsg(d) => DeltaImage(d);
    case MdRef(d) => RefImage(d);
  }

  lemma SessionImage(m: Msg)
    requires m.Login? || m.LoginReply? || m.Command?
    ensures Payload(m) ==
      (match m
       case Login(version, user, token, _) => Wire16(version) + StrImage(user) + StrImage(token)
       case LoginReply(version, code, desc, _) => Wire16(version) + Wire16(code) + StrImage(desc)
       case Command(cmd, ctx, _) => [cmd] + StrImage(ctx)) + Wire16(|m.params| % 0x1_0000) + StrImages(m.params)
  {
    var n, params, vec := Wire16(|m.params| % 0x1_0000), StrImages(m.params), PutVec(PutString, m.params);
    StringsImage(m.params);
    VecImage(PutString, m.params);
    match m
    case Login(version, user, token, _) =>
      StringImage(user);
      StringImage(token);
      assert PutMsg(m) == Then(PutU16(version), Then(PutString(user), Then(PutString(token), vec)));
      FlatThree(PutU16(version), PutString(user), Then(PutString(token), vec));
      hide PutMsg, PutString, StrImage, PutVec, Wire16;
      Assoc4(Wire16(version), StrImage(user), StrImage(token), n, params);
    case LoginReply(version, code, desc, _) =>
      StringImage(desc);
      assert PutMsg(m) == Then(PutU16(version), Then(PutU16(code), Then(PutString(desc), vec)));
      FlatThree(PutU16(version), PutU16(code), Then(PutString(desc), vec));
      hide PutMsg, PutString, StrImage, PutVec, Wire16;
      Assoc4(Wire16(version), Wire16(code), StrImage(desc), n, params);
    case Command(cmd, ctx, _) =>
      StringImage(ctx);
      assert PutMsg(m) == Then(PutU8(cmd), Then(PutString(ctx), vec));
      FlatThree(PutU8(cmd), PutString(ctx), vec);
      hide PutMsg, PutString, StrImage, PutVec, Wire16;
      Assoc4([cmd], StrImage(ctx), n, params, []);
  }

  lemma FlatThree(a: Layout, b: Layout, c: Layout)
    ensures Flat(Then(a, Then(b, c))) == Flat(a) + (Flat(b) + Flat(c))
  {
  }

  lemma Assoc4(a: Bytes, b: Bytes, c: Bytes, d: Bytes, e: Bytes)
    ensures a + b + c + d + e == a + (b + (c + (d + e))) && a + b + c + d == a + (b + (c + d))
  {
  }

  lemma VecImage<T>(put: T -> Layout, v: seq<T>)
    ensures Flat(PutVec(put, v)) == Wire16(|v| % 0x1_0000) + Flat(PutMany(put, v))
  {
  }

  lemma CtxImage<T>(ctx: Str, put: T -> Layout, v: seq<T>)
    ensures Flat(Then(PutString(ctx), PutVec(put, v))) ==
            StrImage(ctx) + Wire16(|v| % 0x1_0000) + Flat(PutMany(put, v))
  {
    StringImage(ctx);
    VecImage(put, v);
    hide PutString, StrImage, PutVec, PutMany, Wire16;
    Assoc(StrImage(ctx), Wire16(|v| % 0x1_0000), Flat(PutMany(put, v)));
  }

  lemma SizeImage(d: Delta)
    ensures Wire32(SizeWord(d)) == [|d.stamps|, d.reserved, |d.dbls|, |d.ints|]
  {
    SizeWordSplits(d);
    WireDigits(SizeWord(d), 0);
    hide Wire32, SizeWord;
  }

  lemma DeltaImage(d: Delta)
    ensures Flat(PutDelta(d)) == StrImage(d.symbol) + [|d.stamps|, d.reserved, |d.dbls|, |d.ints|] +
              Flat(PutMany(PutU16, Indexes(d.ints))) + Flat(PutMany(PutI32, Values(d.ints))) +
              Flat(PutMany(PutU16, Indexes(d.dbls))) + Flat(PutMany(PutU64, Values(d.dbls))) + Flat(PutMany(PutU64, d.stamps))
  {
    StringImage(d.symbol);
    SizeImage(d);
    UpdatesImage(PutI32, d.ints);
    UpdatesImage(PutU64, d.dbls);
    DeltaFrame(d, []);
    assert Flat(PutU32(SizeWord(d))) == Wire32(SizeWord(d));
    var ii, iv := Flat(PutMany(PutU16, Indexes(d.ints))), Flat(PutMany(PutI32, Values(d.ints)));
    var di, dv := Flat(PutMany(PutU16, Indexes(d.dbls))), Flat(PutMany(PutU64, Values(d.dbls)));
    var st, size, sym := Flat(PutMany(PutU64, d.stamps)), Wire32(SizeWord(d)), StrImage(d.symbol);
    hide PutString, StrImage, PutMany, SizeWord, Wire32, Indexes, Values, PutDelta, PutUpdates, PutU32;
    assert Flat(PutDelta(d)) + [] == Flat(PutDelta(d)) && st + [] == st;
    Assoc7(sym, size, ii, iv, di, dv, st);
  }

  lemma UpdatesImage<T>(put: T -> Layout, v: seq<Update<T>>)
    ensures Flat(PutUpdates(put, v)) == Flat(PutMany(PutU16, Indexes(v))) + Flat(PutMany(put, Values(v)))
  {
  }

  lemma Assoc7(a: Bytes, b: Bytes, c: Bytes, d: Bytes, e: Bytes, f: Bytes, g: Bytes)
    ensures a + (b + ((c + d) + ((e + f) + g))) == a + b + c + d + e + f + g
    ensures a + (b + (c + (d + (e + (f + g))))) == a + b + c + d + e + f + g
  {
  }

  lemma RefImage(d: RefData)
    ensures Flat(PutRef(d)) == StrImage(d.symbol) +
              Flat(PutBits(d.ints.Keys)) + Flat(PutBits(d.dbls.Keys)) + Flat(PutBits(d.strs.Keys)) +
              Flat(PutFields(PutI32, d.ints)) + Flat(PutFields(PutU64, d.dbls)) + Flat(PutFields(PutString, d.strs))
  {
    StringImage(d.symbol);
    RefFrame(d, []);
    hide PutString, StrImage, PutBits, PutFields, PutRef;
    assert Flat(PutRef(d)) + [] == Flat(PutRef(d)) && Flat(PutFields(PutString, d.strs)) + [] == Flat(PutFields(PutString, d.strs));
    Assoc7(StrImage(d.symbol), Flat(PutBits(d.ints.Keys)), Flat(PutBits(d.dbls.Keys)), Flat(PutBits(d.strs.Keys)),
           Flat(PutFields(PutI32, d.ints)), Flat(PutFields(PutU64, d.dbls)), Flat(PutFields(PutString, d.strs)));
  }
}
