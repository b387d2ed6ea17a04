/**
 The archive: a fixed buffer with a write cursor, a read cursor and a start offset, and the
 operators that put messages into it and take them out. A refused write or read leaves the
 buffer alone and clears the validity flag, which nothing sets again.
 */
module Archives {
  import opened Words
  import opened Messages
  import opened Codec

  // ---------- what a sequence of writes does to the buffer ----------

  datatype Out = Out(bytes: Bytes, valid: bool)

  function Write(o: Out, data: Bytes): Out {
    if |o.bytes| + |data| > ARCHIVE_BUFF_CAPACITY then o.(valid := false) else o.(bytes := o.bytes + data)
  }

  function WriteAll(o: Out, l: Layout): Out
    decreases l
  {
    match l
    case Nothing => o
    case Field(b) => Write(o, b)
    case Then(a, b) => WriteAll(WriteAll(o, a), b)
  }

  lemma WriteThen(o: Out, a: Layout, b: Layout)
    ensures WriteAll(o, Then(a, b)) == WriteAll(WriteAll(o, a), b)
  {
  }

  // One more turn of the loop over the field indexes.
  lemma WriteIndex(o: Out, s: set<FieldIndex>, i: FieldIndex)
    ensures WriteAll(o, PutMany<U16>(PutU16, Ascending(s, i + 1))) ==
            var w := WriteAll(o, PutMany<U16>(PutU16, Ascending(s, i)));
            if i in s then WriteAll(w, PutU16(i)) else w
  {
    hide PutU16;
    var now, next: seq<U16> := Ascending(s, i), Ascending(s, i + 1);
    if i in s {
      assert next == now + [i] && next[..|now|] == now;
      WriteThen(o, PutMany<U16>(PutU16, now), PutU16(i));
    } else {
      assert next == now;
    }
  }

  lemma WriteNone(o: Out, s: set<FieldIndex>)
    ensures WriteAll(o, PutMany<U16>(PutU16, Ascending(s, 0))) == o
  {
  }

  // The buffer after the values of the set fields below i have been written.
  ghost function FieldsWritten<T>(o: Out, put: T -> Layout, m: map<FieldIndex, T>, i: nat): Out
    requires i <= SNAPSHOT_FIELDS_NUM
  {
    WriteAll(o, PutMany(put, Pick(m, Ascending(m.Keys, i))))
  }

  lemma WriteNoField<T>(o: Out, put: T -> Layout, m: map<FieldIndex, T>)
    ensures FieldsWritten(o, put, m, 0) == o
  {
  }

  lemma WriteField<T>(o: Out, put: T -> Layout, m: map<FieldIndex, T>, i: FieldIndex)
    ensures FieldsWritten(o, put, m, i + 1) ==
            var w := FieldsWritten(o, put, m, i);
            if i in m then WriteAll(w, put(m[i])) else w
  {
    if i in m {
      PickStep(m, i);
      hide Pick;
      WriteThen(o, PutMany(put, Pick(m, Ascending(m.Keys, i))), put(m[i]));
    } else {
      assert Ascending(m.Keys, i + 1) == Ascending(m.Keys, i);
    }
  }

  lemma WriteStr(o: Out, m: map<FieldIndex, Str>, i: FieldIndex, w: Out)
    requires w == FieldsWritten(o, PutString, m, i)
    ensures FieldsWritten(o, PutString, m, i + 1) == if i in m then WriteAll(w, PutString(m[i])) else w
  {
    hide PutString, FieldsWritten;
    WriteField(o, PutString, m, i);
  }

  lemma WriteFields<T>(o: Out, put: T -> Layout, m: map<FieldIndex, T>, n: nat)
    requires n == SNAPSHOT_FIELDS_NUM
    ensures FieldsWritten(o, put, m, n) == WriteAll(o, PutFields(put, m))
  {
  }

  // How many bytes the refused writes would have added.
  function Skipped(o: Out, l: Layout): nat
    decreases l
  {
    match l
    case Nothing => 0
    case Field(b) => if |o.bytes| + |b| > ARCHIVE_BUFF_CAPACITY then |b| else 0
    case Then(a, b) => Skipped(o, a) + Skipped(WriteAll(o, a), b)
  }

  /** Nothing is lost but the refused writes, and the flag stays set exactly when none was refused. */
  lemma {:induction false} WriteConservation(o: Out, l: Layout)
    requires |o.bytes| <= ARCHIVE_BUFF_CAPACITY
    ensures var w := WriteAll(o, l);
            && |w.bytes| <= ARCHIVE_BUFF_CAPACITY
            && |w.bytes| + Skipped(o, l) == |o.bytes| + |Flat(l)|
            && (w.valid <==> o.valid && Skipped(o, l) == 0)
            && (Skipped(o, l) == 0 ==> w.bytes == o.bytes + Flat(l))
    decreases l
  {
    match l
    case Nothing =>
    case Field(_) =>
    case Then(a, b) =>
      WriteConservation(o, a);
      WriteConservation(WriteAll(o, a), b);
  }

  /** A valid archive stays valid exactly when everything fits, and then holds everything in order. */
  lemma {:induction false} WriteFits(o: Out, l: Layout)
    requires |o.bytes| <= ARCHIVE_BUFF_CAPACITY && o.valid
    ensures WriteAll(o, l).valid <==> |o.bytes| + |Flat(l)| <= ARCHIVE_BUFF_CAPACITY
    ensures |o.bytes| + |Flat(l)| <= ARCHIVE_BUFF_CAPACITY ==> WriteAll(o, l) == Out(o.bytes + Flat(l), true)
  {
    WriteConservation(o, l);
    if |o.bytes| + |Flat(l)| <= ARCHIVE_BUFF_CAPACITY {
      NothingRefused(o, l);
    }
  }

  lemma {:induction false} NothingRefused(o: Out, l: Layout)
    requires |o.bytes| + |Flat(l)| <= ARCHIVE_BUFF_CAPACITY
    ensures Skipped(o, l) == 0
    decreases l
  {
    match l
    case Nothing =>
    case Field(_) =>
    case Then(a, b) =>
      WriteConservation(o, a);
      NothingRefused(o, a);
      NothingRefused(WriteAll(o, a), b);
  }

  // ---------- what a read may do ----------

  // A load agrees with a parser: it succeeds exactly when the archive was valid and the parser
  // does, and then returns the same value and leaves the same bytes.
  ghost predicate Agrees<T>(wasValid: bool, p: Parsed<T>, valid: bool, v: T, rest: Bytes) {
    && (valid <==> wasValid && p.Got?)
    && (valid ==> v == p.value && rest == p.rest)
  }

  function Prepend<T>(xs: seq<T>, p: Parsed<seq<T>>): Parsed<seq<T>> {
    match p
    case Bad => Bad
    case Got(ys, rest) => Got(xs + ys, rest)
  }

  // The progress of a loop that has read xs of n elements so far.
  ghost predicate Reading<T>(get: Bytes -> Parsed<T>, n: nat, from: Bytes, wasValid: bool, valid: bool, xs: seq<T>, rest: Bytes)
    requires |xs| <= n
  {
    if valid then wasValid && GetMany(get, n, from) == Prepend(xs, GetMany(get, n - |xs|, rest))
    else !wasValid || GetMany(get, n, from).Bad?
  }

  lemma ReadingStart<T>(get: Bytes -> Parsed<T>, n: nat, from: Bytes, wasValid: bool)
    ensures Reading(get, n, from, wasValid, wasValid, [], from)
  {
    var p := GetMany(get, n, from);
    if p.Got? {
      assert [] + p.value == p.value;
    }
  }

  lemma ReadingEnd<T>(get: Bytes -> Parsed<T>, n: nat, from: Bytes, wasValid: bool, valid: bool, xs: seq<T>, rest: Bytes)
    requires |xs| == n && Reading(get, n, from, wasValid, valid, xs, rest)
    ensures Agrees(wasValid, GetMany(get, n, from), valid, xs, rest)
  {
    assert GetMany(get, 0, rest) == Got([], rest);
    assert xs + [] == xs;
  }

  lemma ReadingStep<T>(get: Bytes -> Parsed<T>, n: nat, from: Bytes, wasValid: bool,
                       before: bool, xs: seq<T>, rest: Bytes, after: bool, x: T, rest': Bytes)
    requires |xs| < n && Reading(get, n, from, wasValid, before, xs, rest)
    requires Agrees(before, get(rest), after, x, rest')
    ensures Reading(get, n, from, wasValid, after, xs + [x], rest')
  {
    if after {
      var tail := GetMany(get, n - |xs| - 1, rest');
      if tail.Got? {
        assert xs + ([x] + tail.value) == (xs + [x]) + tail.value;
      }
    }
  }

  // An index outside the bitset makes the list unreadable.
  lemma ReadingOutside(n: nat, from: Bytes, wasValid: bool, xs: seq<U16>, rest: Bytes)
    requires xs != [] && |xs| <= n && xs[|xs| - 1] >= SNAPSHOT_FIELDS_NUM
    requires Reading<U16>(GetU16, n, from, wasValid, true, xs, rest)
    ensures GetMany<U16>(GetU16, n, from).Got? ==> !InRange(GetMany<U16>(GetU16, n, from).value)
  {
    hide GetU16;
    var p := GetMany<U16>(GetU16, n, from);
    if p.Got? {
      assert p.value[|xs| - 1] == xs[|xs| - 1];
      assert p.value[|xs| - 1] in p.value;
    }
  }

  lemma {:induction false} AscendingGrows(s: set<FieldIndex>, n: nat, m: nat)
    requires n <= m <= SNAPSHOT_FIELDS_NUM
    ensures |Ascending(s, n)| <= |Ascending(s, m)|
  {
    if n < m { AscendingGrows(s, n, m - 1); }
  }

  lemma PickStep<T>(m: map<FieldIndex, T>, i: FieldIndex)
    requires i in m
    ensures var now, next := Pick(m, Ascending(m.Keys, i)), Pick(m, Ascending(m.Keys, i + 1));
            next != [] && next[..|next| - 1] == now && next[|next| - 1] == m[i]
  {
  }

  lemma ToMapStep<T>(s: set<FieldIndex>, i: FieldIndex, vs: seq<T>, v: T)
    requires i in s && |vs| == |Ascending(s, i)|
    ensures ToMap(Ascending(s, i + 1), vs + [v]) == ToMap(Ascending(s, i), vs)[i := v]
  {
    assert Ascending(s, i + 1)[..|vs|] == Ascending(s, i);
    assert (vs + [v])[..|vs|] == vs;
  }

  // The progress of a loop over the field indexes that has passed those below i.
  ghost predicate ReadingFields<T>(get: Bytes -> Parsed<T>, s: set<FieldIndex>, i: nat, from: Bytes, wasValid: bool,
                                   valid: bool, vs: seq<T>, m: map<FieldIndex, T>, rest: Bytes)
    requires i <= SNAPSHOT_FIELDS_NUM
  {
    && |vs| == |Ascending(s, i)| <= |Fields(s)|
    && m == ToMap(Ascending(s, i), vs)
    && Reading(get, |Fields(s)|, from, wasValid, valid, vs, rest)
  }

  lemma FieldsStart<T>(get: Bytes -> Parsed<T>, s: set<FieldIndex>, from: Bytes, wasValid: bool)
    ensures ReadingFields(get, s, 0, from, wasValid, wasValid, [], map[], from)
  {
    ReadingStart(get, |Fields(s)|, from, wasValid);
  }

  lemma FieldsStep<T>(get: Bytes -> Parsed<T>, s: set<FieldIndex>, i: FieldIndex, from: Bytes, wasValid: bool,
                      before: bool, vs: seq<T>, m: map<FieldIndex, T>, rest: Bytes, after: bool, v: T, rest': Bytes)
    requires i in s && ReadingFields(get, s, i, from, wasValid, before, vs, m, rest)
    requires Agrees(before, get(rest), after, v, rest')
    ensures ReadingFields(get, s, i + 1, from, wasValid, after, vs + [v], m[i := v], rest')
  {
    AscendingGrows(s, i + 1, SNAPSHOT_FIELDS_NUM);
    ToMapStep(s, i, vs, v);
    hide ToMap, Reading;
    ReadingStep(get, |Fields(s)|, from, wasValid, before, vs, rest, after, v, rest');
  }

  lemma FieldsSkip<T>(get: Bytes -> Parsed<T>, s: set<FieldIndex>, i: FieldIndex, from: Bytes, wasValid: bool,
                      valid: bool, vs: seq<T>, m: map<FieldIndex, T>, rest: Bytes)
    requires i !in s && ReadingFields(get, s, i, from, wasValid, valid, vs, m, rest)
    ensures ReadingFields(get, s, i + 1, from, wasValid, valid, vs, m, rest)
  {
    assert Ascending(s, i + 1) == Ascending(s, i);
  }

  lemma FieldsEnd<T>(get: Bytes -> Parsed<T>, s: set<FieldIndex>, from: Bytes, wasValid: bool,
                     valid: bool, vs: seq<T>, m: map<FieldIndex, T>, rest: Bytes)
    requires ReadingFields(get, s, SNAPSHOT_FIELDS_NUM, from, wasValid, valid, vs, m, rest)
    ensures Agrees(wasValid, GetFields(get, s, from), valid, m, rest)
  {
    ReadingEnd(get, |Fields(s)|, from, wasValid, valid, vs, rest);
    hide GetMany, Ascending, ToMap;
  }

  // ---------- reading an index list ----------

  function NextIndex(before: U16, data: Bytes): U16 {
    if 2 <= |data| then Unwire16(data[..2]) else Swap16(before)
  }

  function AfterIndex(data: Bytes): Bytes {
    if 2 <= |data| then data[2..] else data
  }

  // Reading n indexes, the variable holding idx, sets a bit outside the bitset.
  predicate BitsThrow(n: nat, idx: U16, data: Bytes) {
    n > 0 &&
    var next := NextIndex(idx, data);
    next >= SNAPSHOT_FIELDS_NUM || BitsThrow(n - 1, next, AfterIndex(data))
  }

  // The i-th index of a list in these bytes.
  function IndexAt(data: Bytes, i: nat): U16
    requires 2 * i + 2 <= |data|
  {
    Unwire16(data[2 * i..2 * i + 2])
  }

  // The last index that is there in full, or what was in the variable before.
  function LastIndex(idx: U16, data: Bytes): U16 {
    if |data| < 2 then idx else IndexAt(data, |data| / 2 - 1)
  }

  // An index that is there lies outside the bitset.
  predicate Outside(n: nat, data: Bytes) {
    exists i :: 0 <= i < n && 2 * i + 2 <= |data| && IndexAt(data, i) >= SNAPSHOT_FIELDS_NUM
  }

  /** Reading n indexes throws exactly when one of those that are there lies outside the bitset, or the
      list is cut short and the last one that is there has a low byte of at least 4: exchanging its
      bytes, as the failed read does, takes it out of the bitset. */
  lemma {:induction false} BitsThrowIff(n: nat, idx: U16, data: Bytes)
    requires idx < SNAPSHOT_FIELDS_NUM
    ensures BitsThrow(n, idx, data) <==> Outside(n, data) || (n > |data| / 2 && LastIndex(idx, data) % 0x100 >= 4)
    decreases n
  {
    if n > 0 {
      if |data| < 2 {
        SwapOut(idx);
        if Swap16(idx) < SNAPSHOT_FIELDS_NUM { StaleKeeps(n - 1, idx, data); }
      } else {
        var next, rest := NextIndex(idx, data), AfterIndex(data);
        OutsideLater(n, data);
        LastLater(idx, next, data);
        assert IndexAt(data, 0) == next;
        hide IndexAt, NextIndex, LastIndex, Outside;
        if next < SNAPSHOT_FIELDS_NUM {
          BitsThrowIff(n - 1, next, rest);
        }
      }
    }
  }

  lemma OutsideLater(n: nat, data: Bytes)
    requires n > 0 && 2 <= |data|
    ensures Outside(n, data) <==> IndexAt(data, 0) >= SNAPSHOT_FIELDS_NUM || Outside(n - 1, AfterIndex(data))
  {
    var rest := AfterIndex(data);
    forall i: nat | 2 * i + 2 <= |rest| ensures IndexAt(rest, i) == IndexAt(data, i + 1) {
      assert rest[2 * i..2 * i + 2] == data[2 * (i + 1)..2 * (i + 1) + 2];
    }
    hide IndexAt;
    if i :| 0 < i < n && 2 * i + 2 <= |data| && IndexAt(data, i) >= SNAPSHOT_FIELDS_NUM {
      assert IndexAt(rest, i - 1) == IndexAt(data, i);
    }
  }

  lemma LastLater(idx: U16, next: U16, data: Bytes)
    requires 2 <= |data| && next == NextIndex(idx, data)
    ensures LastIndex(next, AfterIndex(data)) == LastIndex(idx, data)
  {
    var rest := AfterIndex(data);
    var i := |data| / 2 - 1;
    if |rest| >= 2 {
      assert |rest| / 2 - 1 == i - 1;
      assert rest[2 * (i - 1)..2 * (i - 1) + 2] == data[2 * i..2 * i + 2];
    } else {
      assert i == 0;
    }
  }

  lemma SwapOut(idx: U16)
    requires idx < SNAPSHOT_FIELDS_NUM
    ensures Swap16(idx) >= SNAPSHOT_FIELDS_NUM <==> idx % 0x100 >= 4
  {
  }

  lemma Swap16Zero()
    ensures Swap16(0) == 0
  {
  }

  // Once the bytes have run out, exchanging twice gives back an index that was inside.
  lemma {:induction false} StaleKeeps(n: nat, idx: U16, data: Bytes)
    requires |data| < 2 && idx < SNAPSHOT_FIELDS_NUM && Swap16(idx) < SNAPSHOT_FIELDS_NUM
    ensures !BitsThrow(n, Swap16(idx), data)
    decreases n
  {
    Swap16Involution(idx);
    hide Swap16;
    if n > 0 { StaleKeeps(n - 1, Swap16(idx), data); }
  }

  class Archive {
    const buff: array<Byte>
    var len: nat
    var read: nat
    var start: nat
    var valid: bool

    ghost predicate Inv()
      reads this, buff
    {
      && buff.Length == ARCHIVE_BUFF_CAPACITY
      && len <= ARCHIVE_BUFF_CAPACITY
      && read <= len && start + read <= ARCHIVE_BUFF_CAPACITY
    }

    ghost function State(): Out
      requires Inv()
      reads this, buff
    {
      Out(buff[..len], valid)
    }

    // What the reads can still reach: up to the length, but never past the end of the buffer.
    ghost function Unread(): Bytes
      requires Inv()
      reads this, buff
    {
      buff[start + read..if start + len < ARCHIVE_BUFF_CAPACITY then start + len else ARCHIVE_BUFF_CAPACITY]
    }

    constructor ()
      ensures Inv() && State() == Out([], true) && start == 0 && fresh(buff)
    {
      buff := new Byte[ARCHIVE_BUFF_CAPACITY](_ => 0);
      len, read, start := 0, 0, 0;
      valid := true;
    }

    // ---------- writing ----------

    method BufferWrite(data: Bytes)
      requires Inv()
      modifies this`len, this`valid, buff
      ensures Inv() && State() == Write(old(State()), data)
    {
      var newLen := len + |data|;
      if newLen > ARCHIVE_BUFF_CAPACITY {
        valid := false;
        return;
      }
      forall i | 0 <= i < |data| { buff[len + i] := data[i]; }
      len := newLen;
      assert buff[..len] == old(buff[..len]) + data;
    }

    method StoreU8(v: Byte)
      requires Inv()
      modifies this`len, this`valid, buff
      ensures Inv() && State() == WriteAll(old(State()), PutU8(v))
    {
      BufferWrite([v]);
    }

    method StoreU16(v: U16)
      requires Inv()
      modifies this`len, this`valid, buff
      ensures Inv() && State() == WriteAll(old(State()), PutU16(v))
    {
      Network16(v, [0, 0]);
      BufferWrite(Mem16(Swap16(v)));
    }

    method StoreU32(v: U32)
      requires Inv()
      modifies this`len, this`valid, buff
      ensures Inv() && State() == WriteAll(old(State()), PutU32(v))
    {
      Network32(v, [0, 0, 0, 0]);
      BufferWrite(Mem32(Swap32(v)));
    }

    method StoreI32(v: I32)
      requires Inv()
      modifies this`len, this`valid, buff
      ensures Inv() && State() == WriteAll(old(State()), PutI32(v))
    {
      StoreU32(Pattern(v));
    }

    method StoreU64(v: U64)
      requires Inv()
      modifies this`len, this`valid, buff
      ensures Inv() && State() == WriteAll(old(State()), PutU64(v))
    {
      Network64(v, [0, 0, 0, 0, 0, 0, 0, 0]);
      BufferWrite(Mem64(Hton64(v)));
    }

    // store_header: the header word and the time stamp, both in network order.
    method StoreHeader(h: Header, stamp: U64)
      requires Inv()
      modifies this`len, this`valid, buff
      ensures Inv() && State() == Write(Write(old(State()), HeaderBytes(h)), Wire64(stamp))
    {
      hide HeaderWord, Hton64, Mem64, Wire64;
      Network64(HeaderWord(h), [0, 0, 0, 0, 0, 0, 0, 0]);
      BufferWrite(Mem64(Hton64(HeaderWord(h))));
      StoreU64(stamp);
    }

    method StoreString(s: Str)
      requires Inv()
      modifies this`len, this`valid, buff
      ensures Inv() && State() == WriteAll(old(State()), PutString(s))
    {
      StoreU16(|s| % 0x1_0000);
      BufferWrite(s);
    }

    method StoreStrings(v: seq<Str>)
      requires Inv()
      modifies this`len, this`valid, buff
      ensures Inv() && State() == WriteAll(old(State()), PutVec(PutString, v))
    {
      StoreU16(|v| % 0x1_0000);
      ghost var o := State();
      for i := 0 to |v|
        invariant Inv() && State() == WriteAll(o, PutMany(PutString, v[..i]))
      {
        assert v[..i + 1][..i] == v[..i];
        StoreString(v[i]);
      }
      assert v[..|v|] == v;
    }

    method StoreMenu(v: seq<MenuItem>)
      requires Inv()
      modifies this`len, this`valid, buff
      ensures Inv() && State() == WriteAll(old(State()), PutVec(PutMenuItem, v))
    {
      StoreU16(|v| % 0x1_0000);
      ghost var o := State();
      for i := 0 to |v|
        invariant Inv() && State() == WriteAll(o, PutMany(PutMenuItem, v[..i]))
      {
        assert v[..i + 1][..i] == v[..i];
        StoreU16(v[i].idx);
        StoreString(v[i].val);
      }
      assert v[..|v|] == v;
    }

    // The element loops of the number vectors, the struct-of-arrays data and the stamps.
    method StoreU8s(v: seq<Byte>)
      requires Inv()
      modifies this`len, this`valid, buff
      ensures Inv() && State() == WriteAll(old(State()), PutMany(PutU8, v))
    {
      ghost var o := State();
      for i := 0 to |v|
        invariant Inv() && State() == WriteAll(o, PutMany(PutU8, v[..i]))
      {
        assert v[..i + 1][..i] == v[..i];
        StoreU8(v[i]);
      }
      assert v[..|v|] == v;
    }

    method StoreU16s(v: seq<U16>)
      requires Inv()
      modifies this`len, this`valid, buff
      ensures Inv() && State() == WriteAll(old(State()), PutMany(PutU16, v))
    {
      ghost var o := State();
      for i := 0 to |v|
        invariant Inv() && State() == WriteAll(o, PutMany(PutU16, v[..i]))
      {
        assert v[..i + 1][..i] == v[..i];
        StoreU16(v[i]);
      }
      assert v[..|v|] == v;
    }

    method StoreU32s(v: seq<U32>)
      requires Inv()
      modifies this`len, this`valid, buff
      ensures Inv() && State() == WriteAll(old(State()), PutMany(PutU32, v))
    {
      ghost var o := State();
      for i := 0 to |v|
        invariant Inv() && State() == WriteAll(o, PutMany(PutU32, v[..i]))
      {
        assert v[..i + 1][..i] == v[..i];
        StoreU32(v[i]);
      }
      assert v[..|v|] == v;
    }

    method StoreI32s(v: seq<I32>)
      requires Inv()
      modifies this`len, this`valid, buff
      ensures Inv() && State() == WriteAll(old(State()), PutMany(PutI32, v))
    {
      ghost var o := State();
      for i := 0 to |v|
        invariant Inv() && State() == WriteAll(o, PutMany(PutI32, v[..i]))
      {
        assert v[..i + 1][..i] == v[..i];
        StoreI32(v[i]);
      }
      assert v[..|v|] == v;
    }

    method StoreU64s(v: seq<U64>)
      requires Inv()
      modifies this`len, this`valid, buff
      ensures Inv() && State() == WriteAll(old(State()), PutMany(PutU64, v))
    {
      ghost var o := State();
      for i := 0 to |v|
        invariant Inv() && State() == WriteAll(o, PutMany(PutU64, v[..i]))
      {
        assert v[..i + 1][..i] == v[..i];
        StoreU64(v[i]);
      }
      assert v[..|v|] == v;
    }

    method StoreDelta(d: Delta)
      requires Inv()
      modifies this`len, this`valid, buff
      ensures Inv() && State() == WriteAll(old(State()), PutDelta(d))
    {
      hide PutString, PutU32, PutMany, SizeWord, Indexes, Values;
      ghost var stamps := PutMany(PutU64, d.stamps);
      ghost var dbls := Then(PutUpdates(PutU64, d.dbls), stamps);
      ghost var ints := Then(PutUpdates(PutI32, d.ints), dbls);
      WriteThen(State(), PutString(d.symbol), Then(PutU32(SizeWord(d)), ints));
      StoreString(d.symbol);
      WriteThen(State(), PutU32(SizeWord(d)), ints);
      StoreU32(SizeWord(d));
      WriteThen(State(), PutUpdates(PutI32, d.ints), dbls);
      StoreU16s(Indexes(d.ints));
      StoreI32s(Values(d.ints));
      WriteThen(State(), PutUpdates(PutU64, d.dbls), stamps);
      StoreU16s(Indexes(d.dbls));
      StoreU64s(Values(d.dbls));
      StoreU64s(d.stamps);
    }

    method StoreBits(s: set<FieldIndex>)
      requires Inv()
      modifies this`len, this`valid, buff
      ensures Inv() && State() == WriteAll(old(State()), PutBits(s))
    {
      StoreU16(|s| % 0x1_0000);
      ghost var o := State();
      hide PutU16, PutMany, Ascending, WriteAll;
      WriteNone(o, s);
      for i := 0 to SNAPSHOT_FIELDS_NUM
        invariant Inv() && State() == WriteAll(o, PutMany<U16>(PutU16, Ascending(s, i)))
      {
        WriteIndex(o, s, i);
        if i in s {
          StoreU16(i);
        }
      }
    }

    method StoreInts(m: map<FieldIndex, I32>)
      requires Inv()
      modifies this`len, this`valid, buff
      ensures Inv() && State() == WriteAll(old(State()), PutFields(PutI32, m))
    {
      ghost var o := State();
      WriteNoField(o, PutI32, m);
      WriteFields(o, PutI32, m, SNAPSHOT_FIELDS_NUM);
      hide PutI32, PutU64, PutString, PutFields, FieldsWritten, WriteAll;
      for i := 0 to SNAPSHOT_FIELDS_NUM
        invariant Inv() && State() == FieldsWritten(o, PutI32, m, i)
      {
        WriteField(o, PutI32, m, i);
        if i in m {
          StoreI32(m[i]);
        }
      }
      assert State() == WriteAll(o, PutFields(PutI32, m));
    }

    method StoreDbls(m: map<FieldIndex, Double>)
      requires Inv()
      modifies this`len, this`valid, buff
      ensures Inv() && State() == WriteAll(old(State()), PutFields(PutU64, m))
    {
      ghost var o := State();
      WriteNoField(o, PutU64, m);
      WriteFields(o, PutU64, m, SNAPSHOT_FIELDS_NUM);
      hide PutI32, PutU64, PutString, PutFields, FieldsWritten, WriteAll;
      for i := 0 to SNAPSHOT_FIELDS_NUM
        invariant Inv() && State() == FieldsWritten(o, PutU64, m, i)
      {
        WriteField(o, PutU64, m, i);
        if i in m {
          StoreU64(m[i]);
        }
      }
      assert State() == WriteAll(o, PutFields(PutU64, m));
    }

    method StoreStrs(m: map<FieldIndex, Str>)
      requires Inv()
      modifies this`len, this`valid, buff
      ensures Inv() && State() == WriteAll(old(State()), PutFields(PutString, m))
    {
      ghost var o := State();
      WriteNoField(o, PutString, m);
      WriteFields(o, PutString, m, SNAPSHOT_FIELDS_NUM);
      hide PutI32, PutU64, PutString, PutFields, FieldsWritten, WriteAll;
      for i := 0 to SNAPSHOT_FIELDS_NUM
        invariant Inv() && State() == FieldsWritten(o, PutString, m, i)
      {
        WriteStr(o, m, i, State());
        if i in m {
          StoreString(m[i]);
        }
      }
      assert State() == WriteAll(o, PutFields(PutString, m));
    }

    method StoreRef(d: RefData)
      requires Inv()
      modifies this`len, this`valid, buff
      ensures Inv() && State() == WriteAll(old(State()), PutRef(d))
    {
      hide PutString, PutBits, PutFields;
      ghost var values := Then(PutFields(PutI32, d.ints), Then(PutFields(PutU64, d.dbls), PutFields(PutString, d.strs)));
      ghost var strBits := Then(PutBits(d.strs.Keys), values);
      ghost var dblBits := Then(PutBits(d.dbls.Keys), strBits);
      WriteThen(State(), PutString(d.symbol), Then(PutBits(d.ints.Keys), dblBits));
      StoreString(d.symbol);
      WriteThen(State(), PutBits(d.ints.Keys), dblBits);
      StoreBits(d.ints.Keys);
      WriteThen(State(), PutBits(d.dbls.Keys), strBits);
      StoreBits(d.dbls.Keys);
      WriteThen(State(), PutBits(d.strs.Keys), values);
      StoreBits(d.strs.Keys);
      StoreInts(d.ints);
      StoreDbls(d.dbls);
      StoreStrs(d.strs);
    }

    method StoreLogin(m: Msg)
      requires m.Login? || m.LoginReply?
      requires Inv()
      modifies this`len, this`valid, buff
      ensures Inv() && State() == WriteAll(old(State()), PutMsg(m))
    {
      hide PutU8, PutU16, PutU32, PutString, PutMany, PutRef, PutDelta;
      match m
      case Login(version, user, token, params) =>
        ghost var rest := Then(PutString(token), PutVec(PutString, params));
        WriteThen(State(), PutU16(version), Then(PutString(user), rest));
        StoreU16(version);
        WriteThen(State(), PutString(user), rest);
        StoreString(user);
        StoreString(token);
        StoreStrings(params);
      case LoginReply(version, code, desc, params) =>
        ghost var rest := Then(PutString(desc), PutVec(PutString, params));
        WriteThen(State(), PutU16(version), Then(PutU16(code), rest));
        StoreU16(version);
        WriteThen(State(), PutU16(code), rest);
        StoreU16(code);
        StoreString(desc);
        StoreStrings(params);
    }

    method StoreNumVec(m: Msg)
      requires m.IntVec? || m.ByteVec? || m.DoubleVec?
      requires Inv()
      modifies this`len, this`valid, buff
      ensures Inv() && State() == WriteAll(old(State()), PutMsg(m))
    {
      hide PutU8, PutU16, PutU32, PutString, PutMany, PutRef, PutDelta;
      StoreString(m.ctx);
      match m
      case IntVec(_, ints) =>
        StoreU16(|ints| % 0x1_0000);
        StoreU32s(ints);
      case ByteVec(_, bytes) =>
        StoreU16(|bytes| % 0x1_0000);
        StoreU8s(bytes);
      case DoubleVec(_, dbls) =>
        StoreU16(|dbls| % 0x1_0000);
        StoreU64s(dbls);
    }

    method StoreMsg(m: Msg)
      requires Inv()
      modifies this`len, this`valid, buff
      ensures Inv() && State() == WriteAll(old(State()), PutMsg(m))
    {
      hide PutU8, PutU16, PutU32, PutString, PutMany, PutRef, PutDelta;
      match m
      case Login(_, _, _, _) => StoreLogin(m);
      case LoginReply(_, _, _, _) => StoreLogin(m);
      case Text(text) => StoreString(text);
      case Heartbeat(counter) => StoreU32(counter);
      case Subscribe(symbols) => StoreStrings(symbols);
      case MdRef(ref) => StoreRef(ref);
      case MdDeltaMsg(delta) => StoreDelta(delta);
      case Menu(menu) => StoreMenu(menu);
      case IntVec(_, _) => StoreNumVec(m);
      case ByteVec(_, _) => StoreNumVec(m);
      case DoubleVec(_, _) => StoreNumVec(m);
      case Command(cmd, ctx, params) =>
        StoreU8(cmd);
        StoreString(ctx);
        StoreStrings(params);
    }

    // ---------- reading ----------

    // Frame bytes are copied straight into the buffer and the read cursor is put back; the flag and
    // the start offset stay as they are.
    method Fill(data: Bytes)
      requires Inv() && start == 0 && |data| <= ARCHIVE_BUFF_CAPACITY
      modifies this`len, this`read, buff
      ensures Inv() && Unread() == data && buff[..len] == data
    {
      forall i | 0 <= i < |data| { buff[i] := data[i]; }
      len := |data|;
      read := 0;
      assert buff[..len] == data;
    }

    // A datagram lands at the front of the buffer, of which the rest keeps what it held; it is read in
    // place, from offset and for size bytes.
    method Receive(contents: Bytes, size: nat, offset: nat)
      requires Inv() && |contents| == ARCHIVE_BUFF_CAPACITY
      requires size <= ARCHIVE_BUFF_CAPACITY && offset <= ARCHIVE_BUFF_CAPACITY
      modifies this`len, this`read, this`start, buff
      ensures Inv() && Unread() == contents[offset..][..if size <= |contents| - offset then size else |contents| - offset]
    {
      forall i | 0 <= i < |contents| { buff[i] := contents[i]; }
      len := size;
      read := 0;
      start := offset;
      assert buff[..] == contents;
    }

    // Once the archive is invalid the values returned are never looked at.

    method BufferRead(size: nat) returns (ok: bool, data: Bytes)
      requires Inv()
      modifies this`read, this`valid
      ensures Inv() && Agrees(old(valid), GetBytes(size, old(Unread())), valid, data, Unread())
      ensures |data| == size
      ensures ok == (size <= |old(Unread())|)
      ensures if ok then data == old(Unread())[..size] && Unread() == old(Unread())[size..]
              else !valid && Unread() == old(Unread())
    {
      data := seq(size, _ => 0);
      var newRead := read + size;
      if newRead > len {
        valid := false;
        return false, data;
      }
      if newRead + start > ARCHIVE_BUFF_CAPACITY {
        valid := false;
        return false, data;
      }
      data := buff[start + read..start + newRead];
      assert Unread()[..size] == data;
      read := newRead;
      assert old(Unread())[size..] == Unread();
      ok := true;
    }

    method LoadU8() returns (v: Byte)
      requires Inv()
      modifies this`read, this`valid
      ensures Inv() && Agrees(old(valid), GetU8(old(Unread())), valid, v, Unread())
    {
      var _, b := BufferRead(1);
      v := b[0];
    }

    method LoadU16() returns (v: U16)
      requires Inv()
      modifies this`read, this`valid
      ensures Inv() && Agrees(old(valid), GetU16(old(Unread())), valid, v, Unread())
    {
      hide Swap16, Word16, Unwire16;
      var _, b := BufferRead(2);
      Network16(0, b);
      v := Swap16(Word16(b));
    }

    method LoadU32() returns (v: U32)
      requires Inv()
      modifies this`read, this`valid
      ensures Inv() && Agrees(old(valid), GetU32(old(Unread())), valid, v, Unread())
    {
      hide Swap32, Word32, Unwire32;
      var _, b := BufferRead(4);
      Network32(0, b);
      v := Swap32(Word32(b));
    }

    method LoadU64() returns (v: U64)
      requires Inv()
      modifies this`read, this`valid
      ensures Inv() && Agrees(old(valid), GetU64(old(Unread())), valid, v, Unread())
    {
      hide Hton64, Word64, Unwire64;
      var _, b := BufferRead(8);
      Network64(0, b);
      v := Hton64(Word64(b));
    }

    method LoadI32() returns (v: I32)
      requires Inv()
      modifies this`read, this`valid
      ensures Inv() && Agrees(old(valid), GetI32(old(Unread())), valid, v, Unread())
    {
      var p := LoadU32();
      v := Signed(p);
    }

    method LoadString() returns (s: Str)
      requires Inv()
      modifies this`read, this`valid
      ensures Inv() && Agrees(old(valid), GetString(old(Unread())), valid, s, Unread())
    {
      var n := LoadU16();
      var _, data := BufferRead(n);
      s := data;
    }

    method LoadMenuItem() returns (i: MenuItem)
      requires Inv()
      modifies this`read, this`valid
      ensures Inv() && Agrees(old(valid), GetMenuItem(old(Unread())), valid, i, Unread())
    {
      var idx := LoadU16();
      var val := LoadString();
      i := MenuItem(idx, val);
    }

    method LoadU8s(n: nat) returns (v: seq<Byte>)
      requires Inv()
      modifies this`read, this`valid
      ensures Inv() && Agrees(old(valid), GetMany(GetU8, n, old(Unread())), valid, v, Unread())
      ensures |v| == n
    {
      hide GetU8;
      ghost var from := Unread();
      ReadingStart(GetU8, n, from, valid);
      v := [];
      for i := 0 to n
        invariant Inv() && |v| == i
        invariant Reading(GetU8, n, from, old(valid), valid, v, Unread())
      {
        ghost var before, rest := valid, Unread();
        var x := LoadU8();
        ReadingStep(GetU8, n, from, old(valid), before, v, rest, valid, x, Unread());
        v := v + [x];
      }
      ReadingEnd(GetU8, n, from, old(valid), valid, v, Unread());
    }

    method LoadU16s(n: nat) returns (v: seq<U16>)
      requires Inv()
      modifies this`read, this`valid
      ensures Inv() && Agrees(old(valid), GetMany(GetU16, n, old(Unread())), valid, v, Unread())
      ensures |v| == n
    {
      hide GetU16;
      ghost var from := Unread();
      ReadingStart<U16>(GetU16, n, from, valid);
      v := [];
      for i := 0 to n
        invariant Inv() && |v| == i
        invariant Reading(GetU16, n, from, old(valid), valid, v, Unread())
      {
        ghost var before, rest := valid, Unread();
        var x := LoadU16();
        ReadingStep(GetU16, n, from, old(valid), before, v, rest, valid, x, Unread());
        v := v + [x];
      }
      ReadingEnd(GetU16, n, from, old(valid), valid, v, Unread());
    }

    method LoadU32s(n: nat) returns (v: seq<U32>)
      requires Inv()
      modifies this`read, this`valid
      ensures Inv() && Agrees(old(valid), GetMany(GetU32, n, old(Unread())), valid, v, Unread())
      ensures |v| == n
    {
      hide GetU32;
      ghost var from := Unread();
      ReadingStart(GetU32, n, from, valid);
      v := [];
      for i := 0 to n
        invariant Inv() && |v| == i
        invariant Reading(GetU32, n, from, old(valid), valid, v, Unread())
      {
        ghost var before, rest := valid, Unread();
        var x := LoadU32();
        ReadingStep(GetU32, n, from, old(valid), before, v, rest, valid, x, Unread());
        v := v + [x];
      }
      ReadingEnd(GetU32, n, from, old(valid), valid, v, Unread());
    }

    method LoadI32s(n: nat) returns (v: seq<I32>)
      requires Inv()
      modifies this`read, this`valid
      ensures Inv() && Agrees(old(valid), GetMany(GetI32, n, old(Unread())), valid, v, Unread())
      ensures |v| == n
    {
      hide GetI32;
      ghost var from := Unread();
      ReadingStart(GetI32, n, from, valid);
      v := [];
      for i := 0 to n
        invariant Inv() && |v| == i
        invariant Reading(GetI32, n, from, old(valid), valid, v, Unread())
      {
        ghost var before, rest := valid, Unread();
        var x := LoadI32();
        ReadingStep(GetI32, n, from, old(valid), before, v, rest, valid, x, Unread());
        v := v + [x];
      }
      ReadingEnd(GetI32, n, from, old(valid), valid, v, Unread());
    }

    method LoadU64s(n: nat) returns (v: seq<U64>)
      requires Inv()
      modifies this`read, this`valid
      ensures Inv() && Agrees(old(valid), GetMany(GetU64, n, old(Unread())), valid, v, Unread())
      ensures |v| == n
    {
      hide GetU64;
      ghost var from := Unread();
      ReadingStart(GetU64, n, from, valid);
      v := [];
      for i := 0 to n
        invariant Inv() && |v| == i
        invariant Reading(GetU64, n, from, old(valid), valid, v, Unread())
      {
        ghost var before, rest := valid, Unread();
        var x := LoadU64();
        ReadingStep(GetU64, n, from, old(valid), before, v, rest, valid, x, Unread());
        v := v + [x];
      }
      ReadingEnd(GetU64, n, from, old(valid), valid, v, Unread());
    }

    method LoadStrings(n: nat) returns (v: seq<Str>)
      requires Inv()
      modifies this`read, this`valid
      ensures Inv() && Agrees(old(valid), GetMany(GetString, n, old(Unread())), valid, v, Unread())
      ensures |v| == n
    {
      hide GetString;
      ghost var from := Unread();
      ReadingStart(GetString, n, from, valid);
      v := [];
      for i := 0 to n
        invariant Inv() && |v| == i
        invariant Reading(GetString, n, from, old(valid), valid, v, Unread())
      {
        ghost var before, rest := valid, Unread();
        var x := LoadString();
        ReadingStep(GetString, n, from, old(valid), before, v, rest, valid, x, Unread());
        v := v + [x];
      }
      ReadingEnd(GetString, n, from, old(valid), valid, v, Unread());
    }

    method LoadMenuItems(n: nat) returns (v: seq<MenuItem>)
      requires Inv()
      modifies this`read, this`valid
      ensures Inv() && Agrees(old(valid), GetMany(GetMenuItem, n, old(Unread())), valid, v, Unread())
      ensures |v| == n
    {
      hide GetMenuItem;
      ghost var from := Unread();
      ReadingStart(GetMenuItem, n, from, valid);
      v := [];
      for i := 0 to n
        invariant Inv() && |v| == i
        invariant Reading(GetMenuItem, n, from, old(valid), valid, v, Unread())
      {
        ghost var before, rest := valid, Unread();
        var x := LoadMenuItem();
        ReadingStep(GetMenuItem, n, from, old(valid), before, v, rest, valid, x, Unread());
        v := v + [x];
      }
      ReadingEnd(GetMenuItem, n, from, old(valid), valid, v, Unread());
    }

    method LoadStringVec() returns (v: seq<Str>)
      requires Inv()
      modifies this`read, this`valid
      ensures Inv() && Agrees(old(valid), GetVec(GetString, old(Unread())), valid, v, Unread())
    {
      var n := LoadU16();
      v := LoadStrings(n);
    }

    method LoadIntUpdates(n: nat) returns (v: seq<Update<I32>>)
      requires Inv()
      modifies this`read, this`valid
      ensures Inv() && Agrees(old(valid), GetUpdates(GetI32, n, old(Unread())), valid, v, Unread())
      ensures |v| == n
    {
      hide GetMany;
      var idx := LoadU16s(n);
      var val := LoadI32s(n);
      v := Zip(idx, val);
    }

    method LoadDblUpdates(n: nat) returns (v: seq<Update<Double>>)
      requires Inv()
      modifies this`read, this`valid
      ensures Inv() && Agrees(old(valid), GetUpdates(GetU64, n, old(Unread())), valid, v, Unread())
      ensures |v| == n
    {
      hide GetMany;
      var idx := LoadU16s(n);
      var val := LoadU64s(n);
      v := Zip(idx, val);
    }

    method LoadDelta() returns (d: Delta)
      requires Inv()
      modifies this`read, this`valid
      ensures Inv() && Agrees(old(valid), GetDelta(old(Unread())), valid, d, Unread())
    {
      hide GetString, GetU32, GetSized;
      var symbol := LoadString();
      var size := LoadU32();
      d := LoadSized(symbol, size);
    }

    method LoadSized(symbol: Str, size: U32) returns (d: Delta)
      requires Inv()
      modifies this`read, this`valid
      ensures Inv() && Agrees(old(valid), GetSized(symbol, size, old(Unread())), valid, d, Unread())
    {
      hide GetUpdates, GetMany;
      d := MdDelta([], [], [], 0, []);
      var ni, nd, ns := size % 0x100, size / 0x100 % 0x100, size / 0x100_0000;
      if ni > INT_DELTA_SIZE {
        valid := false;
        return;
      }
      if nd > DBL_DELTA_SIZE {
        valid := false;
        return;
      }
      var ints := LoadIntUpdates(ni);
      var dbls := LoadDblUpdates(nd);
      // load_arr stops with failure when the stamps run past their array
      var stamps := LoadU64s(if ns > STAMP_DELTA_SIZE then STAMP_DELTA_SIZE else ns);
      if ns > STAMP_DELTA_SIZE {
        valid := false;
        return;
      }
      if valid {
        d := MdDelta(symbol, ints, dbls, size / 0x1_0000 % 0x100, stamps);
      }
    }

    // One index of the list, read into the variable that holds the one before: a failed read leaves
    // the old index there, and its bytes are exchanged all the same.
    method LoadIndex(before: U16) returns (idx: U16)
      requires Inv()
      modifies this`read, this`valid
      ensures Inv() && Agrees(old(valid), GetU16(old(Unread())), valid, idx, Unread())
      ensures idx == NextIndex(before, old(Unread())) && Unread() == AfterIndex(old(Unread()))
    {
      hide Swap16, Word16, Unwire16;
      var ok, b := BufferRead(2);
      Network16(0, b);
      idx := Swap16(if ok then Word16(b) else before);
    }

    // threw says that bitset::set has thrown; the record is then abandoned.
    method LoadBits() returns (s: set<FieldIndex>, threw: bool)
      requires Inv()
      modifies this`read, this`valid
      ensures Inv() && Agrees(old(valid), GetBits(old(Unread())), valid, s, Unread())
      ensures threw <==> BitsThrow(NextIndex(0, old(Unread())), 0, AfterIndex(old(Unread())))
    {
      hide GetU16, GetMany, NextIndex, AfterIndex, Reading;
      s := {};
      Swap16Zero();
      var n := LoadIndex(0);
      ghost var wasValid, from, xs: seq<U16> := valid, Unread(), [];
      ReadingStart<U16>(GetU16, n, from, valid);
      var idx: U16 := 0;
      for i := 0 to n
        invariant Inv() && |xs| == i
        invariant Reading(GetU16, n, from, wasValid, valid, xs, Unread())
        invariant InRange(xs) && s == set k: FieldIndex | k in xs
        invariant BitsThrow(n, 0, from) == BitsThrow(n - i, idx, Unread())
      {
        ghost var before, rest := valid, Unread();
        idx := LoadIndex(idx);
        ReadingStep<U16>(GetU16, n, from, wasValid, before, xs, rest, valid, idx, Unread());
        xs := xs + [idx];
        if idx >= SNAPSHOT_FIELDS_NUM {
          if valid { ReadingOutside(n, from, wasValid, xs, Unread()); }
          valid := false;
          return s, true;
        }
        s := s + {idx};
      }
      ReadingEnd<U16>(GetU16, n, from, wasValid, valid, xs, Unread());
      threw := false;
    }

    method LoadInts(s: set<FieldIndex>) returns (m: map<FieldIndex, I32>)
      requires Inv()
      modifies this`read, this`valid
      ensures Inv() && Agrees(old(valid), GetFields(GetI32, s, old(Unread())), valid, m, Unread())
    {
      hide GetI32, GetFields, ReadingFields;
      m := map[];
      ghost var from, vs: seq<I32> := Unread(), [];
      FieldsStart(GetI32, s, from, valid);
      for i := 0 to SNAPSHOT_FIELDS_NUM
        invariant Inv() && ReadingFields(GetI32, s, i, from, old(valid), valid, vs, m, Unread())
      {
        ghost var before, rest := valid, Unread();
        if i in s {
          var val := LoadI32();
          FieldsStep(GetI32, s, i, from, old(valid), before, vs, m, rest, valid, val, Unread());
          vs := vs + [val];
          m := m[i := val];
        } else {
          FieldsSkip(GetI32, s, i, from, old(valid), before, vs, m, rest);
        }
      }
      FieldsEnd(GetI32, s, from, old(valid), valid, vs, m, Unread());
    }

    method LoadDbls(s: set<FieldIndex>) returns (m: map<FieldIndex, Double>)
      requires Inv()
      modifies this`read, this`valid
      ensures Inv() && Agrees(old(valid), GetFields(GetU64, s, old(Unread())), valid, m, Unread())
    {
      hide GetU64, GetFields, ReadingFields;
      m := map[];
      ghost var from, vs: seq<Double> := Unread(), [];
      FieldsStart(GetU64, s, from, valid);
      for i := 0 to SNAPSHOT_FIELDS_NUM
        invariant Inv() && ReadingFields(GetU64, s, i, from, old(valid), valid, vs, m, Unread())
      {
        ghost var before, rest := valid, Unread();
        if i in s {
          var val := LoadU64();
          FieldsStep(GetU64, s, i, from, old(valid), before, vs, m, rest, valid, val, Unread());
          vs := vs + [val];
          m := m[i := val];
        } else {
          FieldsSkip(GetU64, s, i, from, old(valid), before, vs, m, rest);
        }
      }
      FieldsEnd(GetU64, s, from, old(valid), valid, vs, m, Unread());
    }

    method LoadStrs(s: set<FieldIndex>) returns (m: map<FieldIndex, Str>)
      requires Inv()
      modifies this`read, this`valid
      ensures Inv() && Agrees(old(valid), GetFields(GetString, s, old(Unread())), valid, m, Unread())
    {
      hide GetString, GetFields, ReadingFields;
      m := map[];
      ghost var from, vs: seq<Str> := Unread(), [];
      FieldsStart(GetString, s, from, valid);
      for i := 0 to SNAPSHOT_FIELDS_NUM
        invariant Inv() && ReadingFields(GetString, s, i, from, old(valid), valid, vs, m, Unread())
      {
        ghost var before, rest := valid, Unread();
        if i in s {
          var val := LoadString();
          FieldsStep(GetString, s, i, from, old(valid), before, vs, m, rest, valid, val, Unread());
          vs := vs + [val];
          m := m[i := val];
        } else {
          FieldsSkip(GetString, s, i, from, old(valid), before, vs, m, rest);
        }
      }
      FieldsEnd(GetString, s, from, old(valid), valid, vs, m, Unread());
    }

    method LoadRef() returns (d: RefData)
      requires Inv()
      modifies this`read, this`valid
      ensures Inv() && Agrees(old(valid), GetRef(old(Unread())), valid, d, Unread())
    {
      hide GetString, GetBits, GetFields;
      var symbol := LoadString();
      var fi, _ := LoadBits();
      var fd, _ := LoadBits();
      var fs, _ := LoadBits();
      var ints := LoadInts(fi);
      var dbls := LoadDbls(fd);
      var strs := LoadStrs(fs);
      d := RefData(symbol, ints, dbls, strs);
    }

    method LoadLogin() returns (m: Msg)
      requires Inv()
      modifies this`read, this`valid
      ensures Inv() && Agrees(old(valid), GetLogin(old(Unread())), valid, m, Unread())
    {
      var version := LoadU16();
      var user := LoadString();
      var token := LoadString();
      var params := LoadStringVec();
      m := Login(version, user, token, params);
    }

    method LoadLoginReply() returns (m: Msg)
      requires Inv()
      modifies this`read, this`valid
      ensures Inv() && Agrees(old(valid), GetLoginReply(old(Unread())), valid, m, Unread())
    {
      var version := LoadU16();
      var code := LoadU16();
      var desc := LoadString();
      var params := LoadStringVec();
      m := LoginReply(version, code, desc, params);
    }

    method LoadCommand() returns (m: Msg)
      requires Inv()
      modifies this`read, this`valid
      ensures Inv() && Agrees(old(valid), GetCommand(old(Unread())), valid, m, Unread())
    {
      var cmd := LoadU8();
      var ctx := LoadString();
      var params := LoadStringVec();
      m := Command(cmd, ctx, params);
    }

    method LoadIntVec() returns (m: Msg)
      requires Inv()
      modifies this`read, this`valid
      ensures Inv() && Agrees(old(valid), GetIntVec(old(Unread())), valid, m, Unread())
    {
      var ctx := LoadString();
      var n := LoadU16();
      var v := LoadU32s(n);
      m := IntVec(ctx, v);
    }

    method LoadByteVec() returns (m: Msg)
      requires Inv()
      modifies this`read, this`valid
      ensures Inv() && Agrees(old(valid), GetByteVec(old(Unread())), valid, m, Unread())
    {
      var ctx := LoadString();
      var n := LoadU16();
      var v := LoadU8s(n);
      m := ByteVec(ctx, v);
    }

    method LoadDoubleVec() returns (m: Msg)
      requires Inv()
      modifies this`read, this`valid
      ensures Inv() && Agrees(old(valid), GetDoubleVec(old(Unread())), valid, m, Unread())
    {
      var ctx := LoadString();
      var n := LoadU16();
      var v := LoadU64s(n);
      m := DoubleVec(ctx, v);
    }

    // The typed loads of the dispatch switch, one per message type.
    method LoadMsg(t: Byte) returns (m: Msg)
      requires Inv() && KnownType(t)
      modifies this`read, this`valid
      ensures Inv() && Agrees(old(valid), GetMsg(t, old(Unread())), valid, m, Unread())
    {
      match t
      case 1 => m := LoadLogin();
      case 2 => m := LoadLoginReply();
      case 3 =>
        var text := LoadString();
        m := Text(text);
      case 4 =>
        var counter := LoadU32();
        m := Heartbeat(counter);
      case 5 =>
        var symbols := LoadStringVec();
        m := Subscribe(symbols);
      case 6 =>
        var ref := LoadRef();
        m := MdRef(ref);
      case 7 =>
        var delta := LoadDelta();
        m := MdDeltaMsg(delta);
      case 8 =>
        var n := LoadU16();
        var menu := LoadMenuItems(n);
        m := Menu(menu);
      case 9 => m := LoadIntVec();
      case 10 => m := LoadByteVec();
      case 11 => m := LoadDoubleVec();
      case 12 => m := LoadCommand();
    }
  }
}
