/**
 Decoding looks at nothing behind what it decodes, so an encoding that is cut short is refused.
 */
module Truncations {
  import opened Words
  import opened Messages
  import opened Codec
  import opened RoundTrip

  // A parser that succeeds on some bytes does the same with more bytes behind them.
  predicate Extends<T(==)>(p: Parsed<T>, q: Parsed<T>, more: Bytes) {
    p.Got? ==> q == Got(p.value, p.rest + more)
  }

  ghost predicate Local<T(!new)>(get: Bytes -> Parsed<T>) {
    forall data: Bytes, more: Bytes :: Extends(get(data), get(data + more), more)
  }

  lemma At<T(!new)>(get: Bytes -> Parsed<T>, data: Bytes, more: Bytes)
    requires Local(get)
    ensures Extends(get(data), get(data + more), more)
  {
  }

  lemma BytesLocal(n: nat, data: Bytes, more: Bytes)
    ensures Extends(GetBytes(n, data), GetBytes(n, data + more), more)
  {
    if n <= |data| {
      assert (data + more)[..n] == data[..n] && (data + more)[n..] == data[n..] + more;
    }
  }

  lemma NumbersLocal()
    ensures Local(GetU8) && Local(GetU16) && Local(GetU32) && Local(GetU64) && Local(GetI32)
  {
    forall data: Bytes, more: Bytes
      ensures Extends(GetU8(data), GetU8(data + more), more) && Extends(GetU16(data), GetU16(data + more), more)
      ensures Extends(GetU32(data), GetU32(data + more), more) && Extends(GetU64(data), GetU64(data + more), more)
      ensures Extends(GetI32(data), GetI32(data + more), more)
    {
      hide GetBytes, Unwire16, Unwire32, Unwire64, Signed;
      BytesLocal(1, data, more);
      BytesLocal(2, data, more);
      BytesLocal(4, data, more);
      BytesLocal(8, data, more);
    }
  }

  lemma StringAt(data: Bytes, more: Bytes)
    ensures Extends(GetString(data), GetString(data + more), more)
  {
    hide Local, GetU16, GetBytes;
    NumbersLocal();
    At(GetU16, data, more);
    if GetU16(data).Got? { BytesLocal(GetU16(data).value, GetU16(data).rest, more); }
  }

  lemma StringLocal()
    ensures Local(GetString)
  {
    forall data: Bytes, more: Bytes ensures Extends(GetString(data), GetString(data + more), more) { StringAt(data, more); }
  }

  lemma {:induction false} ManyLocal<T(!new)>(get: Bytes -> Parsed<T>, n: nat, data: Bytes, more: Bytes)
    requires Local(get)
    ensures Extends(GetMany(get, n, data), GetMany(get, n, data + more), more)
  {
    if n > 0 {
      assert Extends(get(data), get(data + more), more);
      if get(data).Got? { ManyLocal(get, n - 1, get(data).rest, more); }
    }
  }

  lemma VecLocal<T(!new)>(get: Bytes -> Parsed<T>, data: Bytes, more: Bytes)
    requires Local(get)
    ensures Extends(GetVec(get, data), GetVec(get, data + more), more)
  {
    hide Local, GetU16, GetMany;
    NumbersLocal();
    At(GetU16, data, more);
    if GetU16(data).Got? { ManyLocal(get, GetU16(data).value, GetU16(data).rest, more); }
  }

  lemma MenuItemAt(data: Bytes, more: Bytes)
    ensures Extends(GetMenuItem(data), GetMenuItem(data + more), more)
  {
    hide Local, GetU16, GetString;
    NumbersLocal();
    At(GetU16, data, more);
    if GetU16(data).Got? { StringAt(GetU16(data).rest, more); }
  }

  lemma MenuItemLocal()
    ensures Local(GetMenuItem)
  {
    forall data: Bytes, more: Bytes ensures Extends(GetMenuItem(data), GetMenuItem(data + more), more) { MenuItemAt(data, more); }
  }

  lemma UpdatesLocal<T(!new)>(get: Bytes -> Parsed<T>, n: nat, data: Bytes, more: Bytes)
    requires Local(get)
    ensures Extends(GetUpdates(get, n, data), GetUpdates(get, n, data + more), more)
  {
    hide Local, GetMany, Zip;
    NumbersLocal();
    ManyLocal(GetU16, n, data, more);
    var idx := GetMany(GetU16, n, data);
    if idx.Got? { ManyLocal(get, n, idx.rest, more); }
  }

  lemma SizedLocal(symbol: Str, size: U32, data: Bytes, more: Bytes)
    ensures Extends(GetSized(symbol, size, data), GetSized(symbol, size, data + more), more)
  {
    hide Local, GetUpdates, GetMany;
    NumbersLocal();
    var ni, nd, ns := size % 0x100, size / 0x100 % 0x100, size / 0x100_0000;
    UpdatesLocal(GetI32, ni, data, more);
    var ints := GetUpdates(GetI32, ni, data);
    if ints.Got? {
      UpdatesLocal(GetU64, nd, ints.rest, more);
      var dbls := GetUpdates(GetU64, nd, ints.rest);
      if dbls.Got? { ManyLocal(GetU64, ns, dbls.rest, more); }
    }
  }

  lemma DeltaLocal(data: Bytes, more: Bytes)
    ensures Extends(GetDelta(data), GetDelta(data + more), more)
  {
    hide Local, GetString, GetU32, GetSized;
    NumbersLocal();
    StringAt(data, more);
    if GetString(data).Got? {
      var r0 := GetString(data).rest;
      At(GetU32, r0, more);
      if GetU32(r0).Got? { SizedLocal(GetString(data).value, GetU32(r0).value, GetU32(r0).rest, more); }
    }
  }

  lemma BitsLocal(data: Bytes, more: Bytes)
    ensures Extends(GetBits(data), GetBits(data + more), more)
  {
    hide Local, GetVec, InRange;
    NumbersLocal();
    VecLocal(GetU16, data, more);
  }

  lemma FieldsLocal<T(!new)>(get: Bytes -> Parsed<T>, s: set<FieldIndex>, data: Bytes, more: Bytes)
    requires Local(get)
    ensures Extends(GetFields(get, s, data), GetFields(get, s, data + more), more)
  {
    hide Local, GetMany, ToMap, Fields;
    ManyLocal(get, |Fields(s)|, data, more);
  }

  // The three tables of values, once the three bitsets are known.
  function GetTables(symbol: Str, fi: set<FieldIndex>, fd: set<FieldIndex>, fs: set<FieldIndex>, data: Bytes): Parsed<RefData> {
    var (ints, r4) :- GetFields(GetI32, fi, data);
    var (dbls, r5) :- GetFields(GetU64, fd, r4);
    var (strs, r6) :- GetFields(GetString, fs, r5);
    Got(RefData(symbol, ints, dbls, strs), r6)
  }

  lemma TablesLocal(symbol: Str, fi: set<FieldIndex>, fd: set<FieldIndex>, fs: set<FieldIndex>, data: Bytes, more: Bytes)
    ensures Extends(GetTables(symbol, fi, fd, fs, data), GetTables(symbol, fi, fd, fs, data + more), more)
  {
    hide Local, GetFields;
    NumbersLocal();
    StringLocal();
    FieldsLocal(GetI32, fi, data, more);
    var ints := GetFields(GetI32, fi, data);
    if ints.Got? {
      FieldsLocal(GetU64, fd, ints.rest, more);
      var dbls := GetFields(GetU64, fd, ints.rest);
      if dbls.Got? { FieldsLocal(GetString, fs, dbls.rest, more); }
    }
  }

  lemma RefLocal(data: Bytes, more: Bytes)
    ensures Extends(GetRef(data), GetRef(data + more), more)
  {
    RefIsTables(data);
    RefIsTables(data + more);
    hide GetString, GetBits, GetTables, GetRef;
    StringAt(data, more);
    if GetString(data).Got? {
      var r0 := GetString(data).rest;
      BitsLocal(r0, more);
      if GetBits(r0).Got? {
        var r1 := GetBits(r0).rest;
        BitsLocal(r1, more);
        if GetBits(r1).Got? {
          var r2 := GetBits(r1).rest;
          BitsLocal(r2, more);
          if GetBits(r2).Got? {
            TablesLocal(GetString(data).value, GetBits(r0).value, GetBits(r1).value, GetBits(r2).value, GetBits(r2).rest, more);
          }
        }
      }
    }
    assert Extends(GetRef(data), GetRef(data + more), more);
  }

  function GetRefParts(data: Bytes): Parsed<RefData> {
    var (symbol, r0) :- GetString(data);
    var (fi, r1) :- GetBits(r0);
    var (fd, r2) :- GetBits(r1);
    var (fs, r3) :- GetBits(r2);
    GetTables(symbol, fi, fd, fs, r3)
  }

  lemma RefIsTables(data: Bytes)
    ensures GetRef(data) == GetRefParts(data)
  {
    hide GetString, GetBits, GetFields;
  }

  lemma LoginLocal(data: Bytes, more: Bytes)
    ensures Extends(GetLogin(data), GetLogin(data + more), more)
  {
    hide Local, GetU16, GetString, GetVec;
    NumbersLocal();
    StringLocal();
    At(GetU16, data, more);
    if GetU16(data).Got? {
      var r0 := GetU16(data).rest;
      StringAt(r0, more);
      if GetString(r0).Got? {
        var r1 := GetString(r0).rest;
        StringAt(r1, more);
        if GetString(r1).Got? { VecLocal(GetString, GetString(r1).rest, more); }
      }
    }
  }

  lemma LoginReplyLocal(data: Bytes, more: Bytes)
    ensures Extends(GetLoginReply(data), GetLoginReply(data + more), more)
  {
    hide Local, GetU16, GetString, GetVec;
    NumbersLocal();
    StringLocal();
    At(GetU16, data, more);
    if GetU16(data).Got? {
      var r0 := GetU16(data).rest;
      At(GetU16, r0, more);
      if GetU16(r0).Got? {
        var r1 := GetU16(r0).rest;
        StringAt(r1, more);
        if GetString(r1).Got? { VecLocal(GetString, GetString(r1).rest, more); }
      }
    }
  }

  lemma CommandLocal(data: Bytes, more: Bytes)
    ensures Extends(GetCommand(data), GetCommand(data + more), more)
  {
    hide Local, GetU8, GetString, GetVec;
    NumbersLocal();
    StringLocal();
    At(GetU8, data, more);
    if GetU8(data).Got? {
      var r0 := GetU8(data).rest;
      StringAt(r0, more);
      if GetString(r0).Got? { VecLocal(GetString, GetString(r0).rest, more); }
    }
  }

  lemma NumVecLocal<T(!new)>(get: Bytes -> Parsed<T>, data: Bytes, more: Bytes)
    requires Local(get)
    ensures Extends(GetNumVec(get, data), GetNumVec(get, data + more), more)
  {
    hide Local, GetString, GetVec;
    StringAt(data, more);
    if GetString(data).Got? { VecLocal(get, GetString(data).rest, more); }
  }

  lemma MsgLocal(t: Byte, data: Bytes, more: Bytes)
    requires KnownType(t)
    ensures Extends(GetMsg(t, data), GetMsg(t, data + more), more)
  {
    hide Local, GetString, GetU32, GetVec, GetNumVec, GetRef, GetDelta, GetLogin, GetLoginReply, GetCommand;
    NumbersLocal();
    StringLocal();
    MenuItemLocal();
    match t
    case 1 => LoginLocal(data, more);
    case 2 => LoginReplyLocal(data, more);
    case 3 => StringAt(data, more);
    case 4 => At(GetU32, data, more);
    case 5 => VecLocal(GetString, data, more);
    case 6 => RefLocal(data, more);
    case 7 => DeltaLocal(data, more);
    case 8 => VecLocal(GetMenuItem, data, more);
    case 9 => NumVecLocal(GetU32, data, more);
    case 10 => NumVecLocal(GetU8, data, more);
    case 11 => NumVecLocal(GetU64, data, more);
    case 12 => CommandLocal(data, more);
  }

  /** For every message type, no proper prefix of an encoding decodes. */
  lemma TruncatedRefused(m: Msg, k: nat)
    requires |Payload(m)| < 0x1_0000 && k < |Payload(m)|
    ensures GetMsg(MsgType(m), Payload(m)[..k]) == Bad
  {
    var b := Payload(m);
    var front, more := b[..k], b[k..];
    MsgRoundTrip(m, []);
    MsgLocal(MsgType(m), front, more);
    hide GetMsg, Payload, MsgType;
    assert b + [] == b && front + more == b;
    assert |more| > 0;
  }
}
