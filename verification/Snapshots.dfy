/**
 Snapshots: tables of fields kept as arrays with a bitset, hash snapshots, and the merging of
 deltas into them in struct-of-arrays and array-of-structs form.
 */
module Snapshots {
  import opened Words
  import opened Messages
  import opened Codec

  // ---------- merging on values ----------

  // Later updates of the same index win.
  function MergeUpdates<T>(m: map<U16, T>, v: seq<Update<T>>): map<U16, T> {
    if v == [] then m else MergeUpdates(m, v[..|v| - 1])[v[|v| - 1].idx := v[|v| - 1].val]
  }

  lemma {:induction false} MergeAppend<T>(m: map<U16, T>, v: seq<Update<T>>, w: seq<Update<T>>)
    ensures MergeUpdates(m, v + w) == MergeUpdates(MergeUpdates(m, v), w)
  {
    if w == [] {
      assert v + w == v;
    } else {
      var n := |w| - 1;
      assert (v + w)[..|v| + n] == v + w[..n];
      MergeAppend(m, v, w[..n]);
    }
  }

  /** What a merge leaves at an index: the value of its last update, or else what was there. */
  lemma {:induction false} MergeAt<T>(m: map<U16, T>, v: seq<Update<T>>, k: U16)
    ensures var r := MergeUpdates(m, v);
            if exists i :: 0 <= i < |v| && v[i].idx == k
            then exists i :: 0 <= i < |v| && v[i].idx == k && k in r && r[k] == v[i].val &&
                   forall j :: i < j < |v| ==> v[j].idx != k
            else (k in r <==> k in m) && (k in m ==> r[k] == m[k])
  {
    if v != [] {
      var n := |v| - 1;
      MergeAt(m, v[..n], k);
      if v[n].idx != k && exists i :: 0 <= i < n && v[i].idx == k {
        var i0 :| 0 <= i0 < n && v[i0].idx == k;
        assert v[..n][i0].idx == k;
        var r' := MergeUpdates(m, v[..n]);
        var i :| 0 <= i < n && v[..n][i].idx == k && k in r' && r'[k] == v[..n][i].val &&
                 forall j :: i < j < n ==> v[..n][j].idx != k;
        forall j | i < j < |v| ensures v[j].idx != k {
          if j < n { assert v[..n][j] == v[j]; }
        }
        assert v[i] == v[..n][i];
      } else if v[n].idx != k {
        assert forall i :: 0 <= i < n ==> v[..n][i] == v[i];
      }
    }
  }

  // ---------- deltas in two layouts ----------

  const TEST_ARR_SIZE := 16
  const SNAPSHOT_SIZE := 1100

  // Struct of arrays and array of structs, of which the first len entries count.
  datatype SoaData<T> = SoaData(len: nat, idx: seq<U16>, val: seq<T>)
  datatype AosData<T> = AosData(len: nat, items: seq<Update<T>>)

  predicate SoaOk<T>(d: SoaData<T>) {
    d.len <= TEST_ARR_SIZE && |d.idx| == TEST_ARR_SIZE && |d.val| == TEST_ARR_SIZE
  }

  predicate AosOk<T>(d: AosData<T>) {
    d.len <= TEST_ARR_SIZE && |d.items| == TEST_ARR_SIZE
  }

  function SoaUpdates<T>(d: SoaData<T>): seq<Update<T>>
    requires SoaOk(d)
  {
    Zip(d.idx[..d.len], d.val[..d.len])
  }

  function AosUpdates<T>(d: AosData<T>): seq<Update<T>>
    requires AosOk(d)
  {
    d.items[..d.len]
  }

  // What a merge of the first len entries, read off by idx and val, should leave at k.
  ghost predicate LastEntry<T>(r: map<U16, T>, m: map<U16, T>, len: nat, idx: seq<U16>, val: seq<T>, k: U16)
    requires len <= |idx| && len <= |val|
  {
    if exists i :: 0 <= i < len && idx[i] == k
    then exists i :: 0 <= i < len && idx[i] == k && k in r && r[k] == val[i] && forall j :: i < j < len ==> idx[j] != k
    else (k in r <==> k in m) && (k in m ==> r[k] == m[k])
  }

  lemma LastEntryOf<T>(m: map<U16, T>, v: seq<Update<T>>, idx: seq<U16>, val: seq<T>, k: U16)
    requires |v| <= |idx| && |v| <= |val| && forall i :: 0 <= i < |v| ==> v[i] == Update(idx[i], val[i])
    ensures LastEntry(MergeUpdates(m, v), m, |v|, idx, val, k)
  {
    MergeAt(m, v, k);
    var r := MergeUpdates(m, v);
    if i0 :| 0 <= i0 < |v| && idx[i0] == k {
      assert v[i0].idx == k;
      var i :| 0 <= i < |v| && v[i].idx == k && k in r && r[k] == v[i].val && forall j :: i < j < |v| ==> v[j].idx != k;
      assert forall j :: i < j < |v| ==> idx[j] == v[j].idx;
    } else {
      assert forall i :: 0 <= i < |v| ==> v[i].idx == idx[i];
    }
  }

  /** Of either layout the first len entries count, all of them, and of those with the same index the last. */
  lemma SoaMergeAt<T>(m: map<U16, T>, d: SoaData<T>, k: U16)
    requires SoaOk(d)
    ensures LastEntry(MergeUpdates(m, SoaUpdates(d)), m, d.len, d.idx, d.val, k)
  {
    LastEntryOf(m, SoaUpdates(d), d.idx, d.val, k);
  }

  lemma AosMergeAt<T>(m: map<U16, T>, d: AosData<T>, k: U16)
    requires AosOk(d)
    ensures LastEntry(MergeUpdates(m, AosUpdates(d)), m, d.len, Indexes(d.items), Values(d.items), k)
  {
    assert forall i :: 0 <= i < d.len ==> AosUpdates(d)[i] == Update(Indexes(d.items)[i], Values(d.items)[i]);
    LastEntryOf(m, AosUpdates(d), Indexes(d.items), Values(d.items), k);
  }

  predicate InTable<T>(v: seq<Update<T>>, size: nat) {
    forall i :: 0 <= i < |v| ==> v[i].idx < size
  }

  lemma MergeStep<T>(m: map<U16, T>, v: seq<Update<T>>, i: nat)
    requires i < |v|
    ensures MergeUpdates(m, v[..i + 1]) == MergeUpdates(m, v[..i])[v[i].idx := v[i].val]
  {
    assert v[..i + 1][..i] == v[..i];
  }

  // ---------- a bitset and an array ----------

  datatype Option<T> = None | Some(value: T)

  // An array of values of which only those whose bit is set mean anything.
  class FieldTable<T(0)> {
    const size: nat
    const data: array<T>
    const bits: array<bool>

    ghost predicate Inv() {
      data.Length == size && bits.Length == size && size <= 0x1_0000 && (data as object) != bits
    }

    // The table read as a partial map.
    ghost function View(): (m: map<U16, T>)
      requires Inv()
      reads data, bits
    {
      map k: U16 | 0 <= k < size && bits[k] :: data[k]
    }

    constructor (size: nat, zero: T)
      requires size <= 0x1_0000
      ensures Inv() && this.size == size && View() == map[] && fresh(data) && fresh(bits)
    {
      this.size := size;
      data := new T[size](_ => zero);
      bits := new bool[size](_ => false);
    }

    method Set(i: U16, v: T)
      requires Inv() && i < size
      modifies data, bits
      ensures View() == old(View())[i := v]
    {
      data[i] := v;
      bits[i] := true;
    }

    method Get(i: U16) returns (r: Option<T>)
      requires Inv() && i < size
      ensures r == if i in View() then Some(View()[i]) else None
    {
      if bits[i] {
        return Some(data[i]);
      }
      return None;
    }

    method MergeSoa(d: SoaData<T>)
      requires Inv() && SoaOk(d) && InTable(SoaUpdates(d), size)
      modifies data, bits
      ensures View() == MergeUpdates(old(View()), SoaUpdates(d))
    {
      ghost var v := SoaUpdates(d);
      for i := 0 to d.len
        invariant View() == MergeUpdates(old(View()), v[..i])
      {
        assert v[i] == Update(d.idx[i], d.val[i]);
        MergeStep(old(View()), v, i);
        Set(d.idx[i], d.val[i]);
      }
      assert v[..d.len] == v;
    }

    method MergeAos(d: AosData<T>)
      requires Inv() && AosOk(d) && InTable(AosUpdates(d), size)
      modifies data, bits
      ensures View() == MergeUpdates(old(View()), AosUpdates(d))
    {
      ghost var v := AosUpdates(d);
      for i := 0 to d.len
        invariant View() == MergeUpdates(old(View()), v[..i])
      {
        assert v[i] == d.items[i];
        MergeStep(old(View()), v, i);
        Set(d.items[i].idx, d.items[i].val);
      }
      assert v[..d.len] == v;
    }
  }

  // ---------- a hash map ----------

  class HashTable<T> {
    var entries: map<U16, T>

    constructor ()
      ensures entries == map[]
    {
      entries := map[];
    }

    method Put(idx: U16, val: T)
      modifies this
      ensures entries == old(entries)[idx := val]
    {
      if idx !in entries {
        entries := entries + map[idx := val];
      } else {
        entries := entries[idx := val];
      }
    }

    method MergeSoa(d: SoaData<T>)
      requires SoaOk(d)
      modifies this
      ensures entries == MergeUpdates(old(entries), SoaUpdates(d))
    {
      ghost var v := SoaUpdates(d);
      for i := 0 to d.len
        invariant entries == MergeUpdates(old(entries), v[..i])
      {
        assert v[i] == Update(d.idx[i], d.val[i]);
        MergeStep(old(entries), v, i);
        Put(d.idx[i], d.val[i]);
      }
      assert v[..d.len] == v;
    }

    method MergeAos(d: AosData<T>)
      requires AosOk(d)
      modifies this
      ensures entries == MergeUpdates(old(entries), AosUpdates(d))
    {
      ghost var v := AosUpdates(d);
      for i := 0 to d.len
        invariant entries == MergeUpdates(old(entries), v[..i])
      {
        assert v[i] == d.items[i];
        MergeStep(old(entries), v, i);
        Put(d.items[i].idx, d.items[i].val);
      }
      assert v[..d.len] == v;
    }
  }

  // ---------- the four snapshots side by side ----------

  // What a snapshot holds: the set fields of each kind.
  datatype Snapshot = Snapshot(ints: map<U16, I32>, dbls: map<U16, Double>)

  datatype SoaDelta = SoaDelta(ints: SoaData<I32>, dbls: SoaData<Double>)
  datatype AosDelta = AosDelta(ints: AosData<I32>, dbls: AosData<Double>)

  function MergeBoth(s: Snapshot, ints: seq<Update<I32>>, dbls: seq<Update<Double>>): Snapshot {
    Snapshot(MergeUpdates(s.ints, ints), MergeUpdates(s.dbls, dbls))
  }

  predicate SoaDeltaOk(d: SoaDelta) {
    SoaOk(d.ints) && SoaOk(d.dbls)
  }

  // The same updates in both layouts, with every index inside the arrays.
  predicate SameDelta(soa: SoaDelta, aos: AosDelta) {
    && SoaDeltaOk(soa) && AosOk(aos.ints) && AosOk(aos.dbls)
    && SoaUpdates(soa.ints) == AosUpdates(aos.ints) && InTable(SoaUpdates(soa.ints), SNAPSHOT_SIZE)
    && SoaUpdates(soa.dbls) == AosUpdates(aos.dbls) && InTable(SoaUpdates(soa.dbls), SNAPSHOT_SIZE)
  }

  class HashSnapshot {
    const ints: HashTable<I32>
    const dbls: HashTable<Double>

    function View(): Snapshot
      reads ints, dbls
    {
      Snapshot(ints.entries, dbls.entries)
    }

    constructor ()
      ensures View() == Snapshot(map[], map[]) && fresh(ints) && fresh(dbls)
    {
      ints := new HashTable<I32>();
      dbls := new HashTable<Double>();
    }

    method MergeSoa(d: SoaDelta)
      requires SoaDeltaOk(d)
      modifies ints, dbls
      ensures View() == MergeBoth(old(View()), SoaUpdates(d.ints), SoaUpdates(d.dbls))
    {
      ints.MergeSoa(d.ints);
      dbls.MergeSoa(d.dbls);
    }

    method MergeAos(d: AosDelta)
      requires AosOk(d.ints) && AosOk(d.dbls)
      modifies ints, dbls
      ensures View() == MergeBoth(old(View()), AosUpdates(d.ints), AosUpdates(d.dbls))
    {
      ints.MergeAos(d.ints);
      dbls.MergeAos(d.dbls);
    }
  }

  class ArrSnapshot {
    const ints: FieldTable<I32>
    const dbls: FieldTable<Double>

    ghost predicate Inv() {
      && ints.Inv() && dbls.Inv() && ints.size == dbls.size == SNAPSHOT_SIZE
      && {ints.data as object, ints.bits} !! {dbls.data as object, dbls.bits}
    }

    ghost function Footprint(): set<object> {
      {ints.data, ints.bits, dbls.data, dbls.bits}
    }

    ghost function View(): Snapshot
      requires Inv()
      reads Footprint()
    {
      Snapshot(ints.View(), dbls.View())
    }

    constructor ()
      ensures Inv() && View() == Snapshot(map[], map[]) && fresh(Footprint())
    {
      ints := new FieldTable<I32>(SNAPSHOT_SIZE, 0);
      dbls := new FieldTable<Double>(SNAPSHOT_SIZE, 0);
    }

    method MergeSoa(d: SoaDelta)
      requires Inv() && SoaDeltaOk(d)
      requires InTable(SoaUpdates(d.ints), SNAPSHOT_SIZE) && InTable(SoaUpdates(d.dbls), SNAPSHOT_SIZE)
      modifies Footprint()
      ensures View() == MergeBoth(old(View()), SoaUpdates(d.ints), SoaUpdates(d.dbls))
    {
      hide FieldTable.View;
      ints.MergeSoa(d.ints);
      dbls.MergeSoa(d.dbls);
    }

    method MergeAos(d: AosDelta)
      requires Inv() && AosOk(d.ints) && AosOk(d.dbls)
      requires InTable(AosUpdates(d.ints), SNAPSHOT_SIZE) && InTable(AosUpdates(d.dbls), SNAPSHOT_SIZE)
      modifies Footprint()
      ensures View() == MergeBoth(old(View()), AosUpdates(d.ints), AosUpdates(d.dbls))
    {
      hide FieldTable.View;
      ints.MergeAos(d.ints);
      dbls.MergeAos(d.dbls);
    }
  }

  // Merging deltas one after the other.
  function MergeRun(s: Snapshot, ds: seq<SoaDelta>): Snapshot
    requires forall i :: 0 <= i < |ds| ==> SoaDeltaOk(ds[i])
  {
    if ds == [] then s else
    var n := |ds| - 1;
    assert SoaDeltaOk(ds[n]);
    MergeBoth(MergeRun(s, ds[..n]), SoaUpdates(ds[n].ints), SoaUpdates(ds[n].dbls))
  }

  // The entries of all the deltas, one delta after the other.
  function AllSoa(ds: seq<SoaDelta>): (r: (seq<Update<I32>>, seq<Update<Double>>))
    requires forall i :: 0 <= i < |ds| ==> SoaDeltaOk(ds[i])
  {
    if ds == [] then ([], []) else
    assert SoaDeltaOk(ds[0]);
    var (ints, dbls) := AllSoa(ds[1..]);
    (SoaUpdates(ds[0].ints) + ints, SoaUpdates(ds[0].dbls) + dbls)
  }

  /** Merging deltas in turn is applying all their entries, ints and doubles, in order. */
  lemma {:induction false} MergeRunAll(s: Snapshot, ds: seq<SoaDelta>)
    requires forall i :: 0 <= i < |ds| ==> SoaDeltaOk(ds[i])
    ensures MergeRun(s, ds) == Snapshot(MergeUpdates(s.ints, AllSoa(ds).0), MergeUpdates(s.dbls, AllSoa(ds).1))
    decreases |ds|
  {
    hide SoaUpdates;
    if ds != [] {
      assert SoaDeltaOk(ds[0]);
      var first := MergeBoth(s, SoaUpdates(ds[0].ints), SoaUpdates(ds[0].dbls));
      MergeRunFirst(s, ds);
      MergeRunAll(first, ds[1..]);
      MergeAppend(s.ints, SoaUpdates(ds[0].ints), AllSoa(ds[1..]).0);
      MergeAppend(s.dbls, SoaUpdates(ds[0].dbls), AllSoa(ds[1..]).1);
      hide MergeUpdates;
    }
  }

  lemma {:induction false} MergeRunFirst(s: Snapshot, ds: seq<SoaDelta>)
    requires ds != [] && forall i :: 0 <= i < |ds| ==> SoaDeltaOk(ds[i])
    ensures SoaDeltaOk(ds[0])
    ensures MergeRun(s, ds) == MergeRun(MergeBoth(s, SoaUpdates(ds[0].ints), SoaUpdates(ds[0].dbls)), ds[1..])
    decreases |ds|
  {
    hide SoaUpdates, SoaDeltaOk, MergeBoth;
    var n := |ds| - 1;
    if n > 0 {
      MergeRunFirst(s, ds[..n]);
      assert ds[..n][1..] == ds[1..][..n - 1];
    }
  }

  // One delta, merged into each of the four.
  method MergeHashes(aosHash: HashSnapshot, soaHash: HashSnapshot, soa: SoaDelta, aos: AosDelta)
    requires aosHash.ints != soaHash.ints && aosHash.dbls != soaHash.dbls && SameDelta(soa, aos)
    modifies aosHash.ints, aosHash.dbls, soaHash.ints, soaHash.dbls
    ensures aosHash.View() == MergeBoth(old(aosHash.View()), SoaUpdates(soa.ints), SoaUpdates(soa.dbls))
    ensures soaHash.View() == MergeBoth(old(soaHash.View()), SoaUpdates(soa.ints), SoaUpdates(soa.dbls))
  {
    hide HashSnapshot.View, MergeBoth;
    aosHash.MergeAos(aos);
    soaHash.MergeSoa(soa);
  }

  method MergeArrs(aosArr: ArrSnapshot, soaArr: ArrSnapshot, soa: SoaDelta, aos: AosDelta)
    requires aosArr.Inv() && soaArr.Inv() && aosArr.Footprint() !! soaArr.Footprint() && SameDelta(soa, aos)
    modifies aosArr.Footprint(), soaArr.Footprint()
    ensures aosArr.View() == MergeBoth(old(aosArr.View()), SoaUpdates(soa.ints), SoaUpdates(soa.dbls))
    ensures soaArr.View() == MergeBoth(old(soaArr.View()), SoaUpdates(soa.ints), SoaUpdates(soa.dbls))
  {
    hide ArrSnapshot.View, FieldTable.View, MergeBoth;
    aosArr.MergeAos(aos);
    soaArr.MergeSoa(soa);
  }

  predicate SameDeltas(soas: seq<SoaDelta>, aoss: seq<AosDelta>) {
    |soas| == |aoss| && forall i :: 0 <= i < |soas| ==> SoaDeltaOk(soas[i]) && SameDelta(soas[i], aoss[i])
  }

  method MergeHashRuns(aosHash: HashSnapshot, soaHash: HashSnapshot, soas: seq<SoaDelta>, aoss: seq<AosDelta>)
    requires aosHash.ints != soaHash.ints && aosHash.dbls != soaHash.dbls && SameDeltas(soas, aoss)
    modifies aosHash.ints, aosHash.dbls, soaHash.ints, soaHash.dbls
    ensures aosHash.View() == MergeRun(old(aosHash.View()), soas) && soaHash.View() == MergeRun(old(soaHash.View()), soas)
  {
    hide HashSnapshot.View, MergeBoth, SameDelta, SoaDeltaOk;
    for i := 0 to |soas|
      invariant aosHash.View() == MergeRun(old(aosHash.View()), soas[..i])
      invariant soaHash.View() == MergeRun(old(soaHash.View()), soas[..i])
    {
      assert soas[..i + 1][..i] == soas[..i];
      MergeHashes(aosHash, soaHash, soas[i], aoss[i]);
    }
    assert soas[..|soas|] == soas;
  }

  method MergeArrRuns(aosArr: ArrSnapshot, soaArr: ArrSnapshot, soas: seq<SoaDelta>, aoss: seq<AosDelta>)
    requires aosArr.Inv() && soaArr.Inv() && aosArr.Footprint() !! soaArr.Footprint() && SameDeltas(soas, aoss)
    modifies aosArr.Footprint(), soaArr.Footprint()
    ensures aosArr.View() == MergeRun(old(aosArr.View()), soas) && soaArr.View() == MergeRun(old(soaArr.View()), soas)
  {
    hide ArrSnapshot.View, FieldTable.View, ArrSnapshot.Inv, MergeBoth, SameDelta, SoaDeltaOk;
    for i := 0 to |soas|
      invariant aosArr.View() == MergeRun(old(aosArr.View()), soas[..i])
      invariant soaArr.View() == MergeRun(old(soaArr.View()), soas[..i])
    {
      assert soas[..i + 1][..i] == soas[..i];
      MergeArrs(aosArr, soaArr, soas[i], aoss[i]);
    }
    assert soas[..|soas|] == soas;
  }

  /** After any deltas the hash snapshots and the array snapshots, merging either layout, hold the same
      fields: those of the updates applied in order. */
  method MergeFourWays(aosHash: HashSnapshot, soaHash: HashSnapshot, aosArr: ArrSnapshot, soaArr: ArrSnapshot,
                       soas: seq<SoaDelta>, aoss: seq<AosDelta>)
    requires aosArr.Inv() && soaArr.Inv() && aosArr.Footprint() !! soaArr.Footprint()
    requires aosHash.ints != soaHash.ints && aosHash.dbls != soaHash.dbls && SameDeltas(soas, aoss)
    requires aosHash.View() == soaHash.View() == aosArr.View() == soaArr.View()
    modifies aosHash.ints, aosHash.dbls, soaHash.ints, soaHash.dbls, aosArr.Footprint(), soaArr.Footprint()
    ensures aosHash.View() == soaHash.View() == aosArr.View() == soaArr.View() == MergeRun(old(aosHash.View()), soas)
  {
    hide ArrSnapshot.View, FieldTable.View, HashSnapshot.View, MergeRun, SameDeltas;
    MergeHashRuns(aosHash, soaHash, soas, aoss);
    MergeArrRuns(aosArr, soaArr, soas, aoss);
  }

  // ---------- reference data ----------

  // One symbol's reference data: three tables of SNAPSHOT_FIELDS_NUM fields.
  class RefFields {
    const symbol: Str
    const ints: FieldTable<I32>
    const dbls: FieldTable<Double>
    const strs: FieldTable<Str>

    ghost predicate Inv() {
      && ints.Inv() && dbls.Inv() && strs.Inv()
      && ints.size == dbls.size == strs.size == SNAPSHOT_FIELDS_NUM
      && {ints.data as object, ints.bits} !! {dbls.data as object, dbls.bits} !! {strs.data as object, strs.bits}
    }

    ghost function Footprint(): set<object> {
      {ints.data, ints.bits, dbls.data, dbls.bits, strs.data, strs.bits}
    }

    // The value that is sent: the set fields with their values.
    ghost function View(): RefData
      requires Inv()
      reads Footprint()
    {
      RefData(symbol, map k: FieldIndex | k in ints.View() :: ints.View()[k],
              map k: FieldIndex | k in dbls.View() :: dbls.View()[k],
              map k: FieldIndex | k in strs.View() :: strs.View()[k])
    }

    constructor (symbol: Str)
      ensures Inv() && View() == RefData(symbol, map[], map[], map[]) && fresh(Footprint())
    {
      this.symbol := symbol;
      ints := new FieldTable<I32>(SNAPSHOT_FIELDS_NUM, 0);
      dbls := new FieldTable<Double>(SNAPSHOT_FIELDS_NUM, 0);
      strs := new FieldTable<Str>(SNAPSHOT_FIELDS_NUM, []);
    }

    method SetInt(i: FieldIndex, v: I32)
      requires Inv()
      modifies ints.data, ints.bits
      ensures View() == old(View()).(ints := old(View()).ints[i := v])
    {
      ints.Set(i, v);
    }

    method SetDbl(i: FieldIndex, v: Double)
      requires Inv()
      modifies dbls.data, dbls.bits
      ensures View() == old(View()).(dbls := old(View()).dbls[i := v])
    {
      dbls.Set(i, v);
    }

    method SetStr(i: FieldIndex, v: Str)
      requires Inv()
      modifies strs.data, strs.bits
      ensures View() == old(View()).(strs := old(View()).strs[i := v])
    {
      strs.Set(i, v);
    }

    method GetInt(i: FieldIndex) returns (r: Option<I32>)
      requires Inv()
      ensures r == if i in View().ints then Some(View().ints[i]) else None
    {
      r := ints.Get(i);
    }

    method GetDbl(i: FieldIndex) returns (r: Option<Double>)
      requires Inv()
      ensures r == if i in View().dbls then Some(View().dbls[i]) else None
    {
      r := dbls.Get(i);
    }

    method GetStr(i: FieldIndex) returns (r: Option<Str>)
      requires Inv()
      ensures r == if i in View().strs then Some(View().strs[i]) else None
    {
      r := strs.Get(i);
    }
  }
}
