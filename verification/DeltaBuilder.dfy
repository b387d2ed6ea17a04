/**
 The delta builder splits a stream of field updates into deltas of bounded size and hands them to
 a publisher that may refuse; merging what was published rebuilds what was added.
 */
module DeltaBuilders {
  import opened Words
  import opened Messages
  import opened Codec
  import opened Lengths
  import opened Frames
  import opened Snapshots

  // answers is what the publisher will return, yes once it is used up; published are the deltas it
  // accepted; ints and dbls are the pending entries of the delta being filled.
  datatype Builder = Builder(symbol: Str, deltaSymbol: Str, ints: seq<Update<I32>>, dbls: seq<Update<Double>>,
                             answers: seq<bool>, published: seq<Delta>)

  predicate Bounded(b: Builder) {
    |b.ints| <= INT_DELTA_SIZE && |b.dbls| <= DBL_DELTA_SIZE
  }

  // The delta that would go out now, with one stamp.
  function Current(b: Builder, now: U64): Delta
    requires Bounded(b)
  {
    MdDelta(b.deltaSymbol, b.ints, b.dbls, 0, [now])
  }

  function Init(b: Builder): Builder {
    b.(deltaSymbol := b.symbol, ints := [], dbls := [])
  }

  function Begin(b: Builder, symbol: Str): Builder {
    Init(b.(symbol := symbol))
  }

  datatype Outcome = Outcome(ok: bool, b: Builder)

  function Flush(b: Builder, now: U64): Outcome
    requires Bounded(b)
  {
    var ok := b.answers == [] || b.answers[0];
    var rest := if b.answers == [] then [] else b.answers[1..];
    Outcome(ok, b.(answers := rest, published := if ok then b.published + [Current(b, now)] else b.published))
  }

  function FlushAndBegin(b: Builder, now: U64): Outcome
    requires Bounded(b)
  {
    var f := Flush(b, now);
    if f.ok then Outcome(true, Init(f.b)) else f
  }

  function AddInt(b: Builder, u: Update<I32>, now: U64): (r: Outcome)
    requires Bounded(b)
    ensures Bounded(r.b)
  {
    var f := if |b.ints| == INT_DELTA_SIZE then FlushAndBegin(b, now) else Outcome(true, b);
    if f.ok then Outcome(true, f.b.(ints := f.b.ints + [u])) else f
  }

  function AddDbl(b: Builder, u: Update<Double>, now: U64): (r: Outcome)
    requires Bounded(b)
    ensures Bounded(r.b)
  {
    var f := if |b.dbls| == DBL_DELTA_SIZE then FlushAndBegin(b, now) else Outcome(true, b);
    if f.ok then Outcome(true, f.b.(dbls := f.b.dbls + [u])) else f
  }

  function End(b: Builder, now: U64): Outcome
    requires Bounded(b)
  {
    var f := Flush(b, now);
    if f.ok then Outcome(true, f.b.(symbol := [], ints := [], dbls := [])) else f
  }

  // ---------- runs of adds ----------

  datatype Add = Int(u: Update<I32>, now: U64) | Dbl(v: Update<Double>, now: U64)

  // The builder after some adds, with the updates for which the call returned true.
  datatype Run = Run(b: Builder, ints: seq<Update<I32>>, dbls: seq<Update<Double>>)

  function RunAdd(r: Run, a: Add): (r': Run)
    requires Bounded(r.b)
    ensures Bounded(r'.b)
  {
    match a
    case Int(u, now) =>
      var o := AddInt(r.b, u, now);
      Run(o.b, if o.ok then r.ints + [u] else r.ints, r.dbls)
    case Dbl(v, now) =>
      var o := AddDbl(r.b, v, now);
      Run(o.b, r.ints, if o.ok then r.dbls + [v] else r.dbls)
  }

  function RunAdds(b: Builder, adds: seq<Add>): (r: Run)
    requires Bounded(b)
    ensures Bounded(r.b)
  {
    if adds == [] then Run(b, [], []) else RunAdd(RunAdds(b, adds[..|adds| - 1]), adds[|adds| - 1])
  }

  function AllInts(ds: seq<Delta>): seq<Update<I32>> {
    if ds == [] then [] else AllInts(ds[..|ds| - 1]) + ds[|ds| - 1].ints
  }

  function AllDbls(ds: seq<Delta>): seq<Update<Double>> {
    if ds == [] then [] else AllDbls(ds[..|ds| - 1]) + ds[|ds| - 1].dbls
  }

  predicate Full(d: Delta) {
    |d.ints| == INT_DELTA_SIZE || |d.dbls| == DBL_DELTA_SIZE
  }

  // The deltas published since b.
  function Since(b: Builder, now: Builder): seq<Delta>
    requires b.published <= now.published
  {
    now.published[|b.published|..]
  }

  // What a flush for lack of room publishes.
  predicate Sealed(d: Delta, symbol: Str) {
    Full(d) && d.symbol == symbol && |d.stamps| == 1 && d.reserved == 0
  }

  predicate AllSealed(ds: seq<Delta>, symbol: Str) {
    forall i :: 0 <= i < |ds| ==> Sealed(ds[i], symbol)
  }

  // These deltas and the pending entries hold what was accepted, in order.
  ghost predicate Held(ds: seq<Delta>, r: Run) {
    AllInts(ds) + r.b.ints == r.ints && AllDbls(ds) + r.b.dbls == r.dbls
  }

  // Nothing accepted is lost or reordered, and what has been published is full and has the symbol.
  ghost predicate Conserved(b: Builder, r: Run) {
    && Bounded(r.b) && b.published <= r.b.published
    && Held(Since(b, r.b), r)
    && r.b.symbol == r.b.deltaSymbol == b.symbol
    && AllSealed(Since(b, r.b), b.symbol)
  }

  lemma AllAppend(ds: seq<Delta>, d: Delta)
    ensures AllInts(ds + [d]) == AllInts(ds) + d.ints && AllDbls(ds + [d]) == AllDbls(ds) + d.dbls
  {
    assert (ds + [d])[..|ds|] == ds;
  }

  // What is pending moves into one more delta.
  lemma HeldAppend(ds: seq<Delta>, d: Delta, r: Run, r': Run)
    requires Held(ds, r) && d.ints == r.b.ints && d.dbls == r.b.dbls
    requires r'.ints == r.ints && r'.dbls == r.dbls && r'.b.ints == [] && r'.b.dbls == []
    ensures Held(ds + [d], r')
  {
    AllAppend(ds, d);
    hide AllInts, AllDbls;
    assert r.ints + [] == r.ints && r.dbls + [] == r.dbls;
  }

  lemma SinceAppend(b: Builder, c: Builder, c': Builder, d: Delta)
    requires b.published <= c.published && c'.published == c.published + [d]
    ensures b.published <= c'.published && Since(b, c') == Since(b, c) + [d]
  {
  }

  lemma FlushAccepted(b: Builder, r: Run, now: U64)
    requires Conserved(b, r) && (|r.b.ints| == INT_DELTA_SIZE || |r.b.dbls| == DBL_DELTA_SIZE)
    requires FlushAndBegin(r.b, now).ok
    ensures var f := FlushAndBegin(r.b, now); Conserved(b, r.(b := f.b)) && f.b.ints == [] && f.b.dbls == []
  {
    var f, d := FlushAndBegin(r.b, now), Current(r.b, now);
    assert Sealed(d, b.symbol);
    SinceAppend(b, r.b, f.b, d);
    HeldAppend(Since(b, r.b), d, r, r.(b := f.b));
    hide Sealed, Held, Since, Current;
  }

  lemma FlushConserves(b: Builder, r: Run, now: U64)
    requires Conserved(b, r) && (|r.b.ints| == INT_DELTA_SIZE || |r.b.dbls| == DBL_DELTA_SIZE)
    ensures var f := FlushAndBegin(r.b, now);
            && Conserved(b, r.(b := f.b))
            && (f.ok ==> f.b.ints == [] && f.b.dbls == [])
            && (!f.ok ==> f.b.ints == r.b.ints && f.b.dbls == r.b.dbls)
  {
    if FlushAndBegin(r.b, now).ok {
      FlushAccepted(b, r, now);
    } else {
      hide Sealed, AllInts, AllDbls;
    }
  }

  lemma IntConserves(b: Builder, r: Run, u: Update<I32>, now: U64)
    requires Conserved(b, r)
    ensures var o := AddInt(r.b, u, now);
            Conserved(b, Run(o.b, if o.ok then r.ints + [u] else r.ints, r.dbls))
  {
    if |r.b.ints| == INT_DELTA_SIZE { FlushConserves(b, r, now); }
    var f := if |r.b.ints| == INT_DELTA_SIZE then FlushAndBegin(r.b, now) else Outcome(true, r.b);
    var ds := AllInts(Since(b, f.b));
    hide FlushAndBegin, AllInts, AllDbls;
    if f.ok {
      assert (ds + f.b.ints) + [u] == ds + (f.b.ints + [u]);
    }
  }

  lemma DblConserves(b: Builder, r: Run, v: Update<Double>, now: U64)
    requires Conserved(b, r)
    ensures var o := AddDbl(r.b, v, now);
            Conserved(b, Run(o.b, r.ints, if o.ok then r.dbls + [v] else r.dbls))
  {
    if |r.b.dbls| == DBL_DELTA_SIZE { FlushConserves(b, r, now); }
    var f := if |r.b.dbls| == DBL_DELTA_SIZE then FlushAndBegin(r.b, now) else Outcome(true, r.b);
    var ds := AllDbls(Since(b, f.b));
    hide FlushAndBegin, AllInts, AllDbls;
    if f.ok {
      assert (ds + f.b.dbls) + [v] == ds + (f.b.dbls + [v]);
    }
  }

  /** Whatever the publisher answers, the fields of the deltas it accepted followed by the pending ones
      are, kind by kind, the updates accepted since begin, in order; a refused call loses nothing. */
  lemma {:induction false} Conservation(b0: Builder, symbol: Str, adds: seq<Add>)
    ensures var b := Begin(b0, symbol); Conserved(b, RunAdds(b, adds))
  {
    var b := Begin(b0, symbol);
    if adds == [] {
      assert Since(b, b) == [];
    } else {
      var n := |adds| - 1;
      Conservation(b0, symbol, adds[..n]);
      var before := RunAdds(b, adds[..n]);
      hide Conserved, AddInt, AddDbl;
      match adds[n]
      case Int(u, now) => IntConserves(b, before, u, now);
      case Dbl(v, now) => DblConserves(b, before, v, now);
    }
  }

  // After an end: everything accepted has been published, or nothing has changed.
  lemma EndConserves(b0: Builder, symbol: Str, adds: seq<Add>, now: U64)
    ensures var b := Begin(b0, symbol);
            var r := RunAdds(b, adds);
            var e := End(r.b, now);
            && b.published <= r.b.published <= e.b.published
            && (e.ok ==> AllInts(Since(b, e.b)) == r.ints && AllDbls(Since(b, e.b)) == r.dbls &&
                         Since(b, e.b) == Since(b, r.b) + [MdDelta(symbol, r.b.ints, r.b.dbls, 0, [now])] &&
                         e.b.ints == [] && e.b.dbls == [])
            && (!e.ok ==> Conserved(b, r.(b := e.b)) && e.b.ints == r.b.ints && e.b.dbls == r.b.dbls)
  {
    Conservation(b0, symbol, adds);
    var b := Begin(b0, symbol);
    var r := RunAdds(b, adds);
    var e := End(r.b, now);
    hide RunAdds, AllInts, AllDbls, Sealed;
    if e.ok {
      SinceAppend(b, r.b, e.b, Current(r.b, now));
      AllAppend(Since(b, r.b), Current(r.b, now));
    }
  }

  // ---------- what is accepted ----------

  // The updates of the calls, kind by kind.
  function IntsOf(adds: seq<Add>): seq<Update<I32>> {
    if adds == [] then [] else
    IntsOf(adds[..|adds| - 1]) + if adds[|adds| - 1].Int? then [adds[|adds| - 1].u] else []
  }

  function DblsOf(adds: seq<Add>): seq<Update<Double>> {
    if adds == [] then [] else
    DblsOf(adds[..|adds| - 1]) + if adds[|adds| - 1].Dbl? then [adds[|adds| - 1].v] else []
  }

  predicate RefusesNext(answers: seq<bool>) {
    answers != [] && !answers[0]
  }

  function AfterNext(answers: seq<bool>): seq<bool> {
    if answers == [] then [] else answers[1..]
  }

  /** A call returns false exactly when it finds its array full, or is the end, and the next answer of
      the publisher is false; it then uses up that answer. */
  lemma RefusedIff(b: Builder, u: Update<I32>, v: Update<Double>, now: U64)
    requires Bounded(b)
    ensures AddInt(b, u, now).ok <==> !(|b.ints| == 6 && RefusesNext(b.answers))
    ensures AddInt(b, u, now).b.answers == if |b.ints| == 6 then AfterNext(b.answers) else b.answers
    ensures AddDbl(b, v, now).ok <==> !(|b.dbls| == 18 && RefusesNext(b.answers))
    ensures AddDbl(b, v, now).b.answers == if |b.dbls| == 18 then AfterNext(b.answers) else b.answers
    ensures End(b, now).ok <==> !RefusesNext(b.answers)
    ensures End(b, now).b.answers == AfterNext(b.answers)
  {
  }

  // The call finds its array full, so that it must ask the publisher.
  predicate MustAsk(b: Builder, a: Add) {
    if a.Int? then |b.ints| == 6 else |b.dbls| == 18
  }

  // What one call accepts and which answer it uses up.
  lemma AddOutcome(r: Run, a: Add)
    requires Bounded(r.b)
    ensures var r' := RunAdd(r, a);
            var refused := MustAsk(r.b, a) && RefusesNext(r.b.answers);
            && r'.b.answers == (if MustAsk(r.b, a) then AfterNext(r.b.answers) else r.b.answers)
            && r'.ints == (if a.Int? && !refused then r.ints + [a.u] else r.ints)
            && r'.dbls == (if a.Dbl? && !refused then r.dbls + [a.v] else r.dbls)
  {
    var u := if a.Int? then a.u else Update(0, 0);
    var v := if a.Dbl? then a.v else Update(0, 0);
    RefusedIff(r.b, u, v, a.now);
    hide AddInt, AddDbl, End, RefusesNext, AfterNext;
  }

  predicate Willing(answers: seq<bool>) {
    forall i :: 0 <= i < |answers| ==> answers[i]
  }

  lemma WillingNext(answers: seq<bool>)
    requires Willing(answers)
    ensures Willing(AfterNext(answers)) && !RefusesNext(answers)
  {
  }

  /** A publisher that refuses nothing makes every call succeed: all the updates of the calls have been
      accepted, in order, and the end publishes what is pending. */
  lemma {:induction false} AllAccepted(b0: Builder, symbol: Str, adds: seq<Add>, now: U64)
    requires Willing(b0.answers)
    ensures var r := RunAdds(Begin(b0, symbol), adds);
            && r.ints == IntsOf(adds) && r.dbls == DblsOf(adds)
            && Willing(r.b.answers) && End(r.b, now).ok
  {
    var b := Begin(b0, symbol);
    if adds != [] {
      var n := |adds| - 1;
      AllAccepted(b0, symbol, adds[..n], now);
      var before := RunAdds(b, adds[..n]);
      AddOutcome(before, adds[n]);
      WillingNext(before.b.answers);
      assert RunAdds(b, adds) == RunAdd(before, adds[n]);
      hide RunAdd, Willing, Begin, End;
    }
    RefusedIff(RunAdds(b, adds).b, Update(0, 0), Update(0, 0), now);
    WillingNext(RunAdds(b, adds).b.answers);
    hide RunAdds, RunAdd, Willing, Begin, End, AddInt, AddDbl;
  }

  function Falses(answers: seq<bool>): nat {
    if answers == [] then 0 else Falses(answers[..|answers| - 1]) + if answers[|answers| - 1] then 0 else 1
  }

  // The answers used up since b.
  ghost predicate Used(b: Builder, now: Builder, k: nat) {
    k <= |b.answers| && now.answers == b.answers[k..]
  }

  lemma UsedNext(b: Builder, c: Builder, c': Builder, k: nat)
    requires Used(b, c, k)
    requires c'.answers == AfterNext(c.answers)
    ensures var k' := if c.answers == [] then k else k + 1;
            && Used(b, c', k')
            && Falses(b.answers[..k']) == Falses(b.answers[..k]) + if RefusesNext(c.answers) then 1 else 0
  {
    if c.answers != [] {
      assert b.answers[..k + 1][..k] == b.answers[..k];
    }
  }

  // After some calls, k answers used up: accepted and refused calls add up to n.
  ghost predicate Tally(b: Builder, r: Run, k: nat, n: nat) {
    Used(b, r.b, k) && |r.ints| + |r.dbls| + Falses(b.answers[..k]) == n
  }

  lemma TallyStart(b0: Builder, symbol: Str)
    ensures Tally(b0, Run(Begin(b0, symbol), [], []), 0, 0)
  {
  }

  lemma TallyNext(b: Builder, r: Run, a: Add, k: nat, n: nat) returns (k': nat)
    requires Bounded(r.b) && Tally(b, r, k, n)
    ensures Tally(b, RunAdd(r, a), k', n + 1)
  {
    var r' := RunAdd(r, a);
    AddOutcome(r, a);
    hide RunAdd, Used, Falses, RefusesNext, AfterNext, MustAsk;
    if MustAsk(r.b, a) {
      UsedNext(b, r.b, r'.b, k);
      k' := if r.b.answers == [] then k else k + 1;
    } else {
      SameUsed(b, r.b, r'.b, k);
      k' := k;
    }
  }

  /** Whatever the publisher answers, there are as many refused calls as false answers used up. */
  lemma {:induction false} RefusalsCount(b0: Builder, symbol: Str, adds: seq<Add>) returns (k: nat)
    ensures Tally(b0, RunAdds(Begin(b0, symbol), adds), k, |adds|)
  {
    hide Tally, RunAdd;
    if adds == [] {
      TallyStart(b0, symbol);
      k := 0;
    } else {
      var front := adds[..|adds| - 1];
      k := RefusalsCount(b0, symbol, front);
      k := TallyNext(b0, RunAdds(Begin(b0, symbol), front), adds[|adds| - 1], k, |front|);
    }
  }

  lemma SameUsed(b: Builder, c: Builder, c': Builder, k: nat)
    requires Used(b, c, k) && c'.answers == c.answers
    ensures Used(b, c', k)
  {
  }

  // The time stamp is that of the call that published the delta.
  predicate StampedBy(d: Delta, adds: seq<Add>) {
    exists i :: 0 <= i < |adds| && d.stamps == [adds[i].now]
  }

  /** Every delta published by adds carries one stamp, the time of the call that published it. */
  lemma {:induction false} Stamps(b0: Builder, symbol: Str, adds: seq<Add>)
    ensures var b := Begin(b0, symbol);
            var r := RunAdds(b, adds);
            b.published <= r.b.published && forall d :: d in Since(b, r.b) ==> StampedBy(d, adds)
  {
    var b := Begin(b0, symbol);
    if adds != [] {
      var n := |adds| - 1;
      Stamps(b0, symbol, adds[..n]);
      var before, after := RunAdds(b, adds[..n]).b, RunAdds(b, adds).b;
      PublishesOne(before, adds[n]);
      assert after == if adds[n].Int? then AddInt(before, adds[n].u, adds[n].now).b else AddDbl(before, adds[n].v, adds[n].now).b;
      hide AddInt, AddDbl, Begin, RunAdds, StampedBy;
      forall d | d in Since(b, after) ensures StampedBy(d, adds) {
        if d in Since(b, before) {
          StampedLater(d, adds);
        } else {
          assert d == after.published[|before.published|] && d.stamps == [adds[n].now];
          StampedNow(d, adds);
        }
      }
    }
  }

  lemma StampedLater(d: Delta, adds: seq<Add>)
    requires adds != [] && StampedBy(d, adds[..|adds| - 1])
    ensures StampedBy(d, adds)
  {
    var i :| 0 <= i < |adds| - 1 && d.stamps == [adds[..|adds| - 1][i].now];
    assert adds[i] == adds[..|adds| - 1][i];
  }

  lemma StampedNow(d: Delta, adds: seq<Add>)
    requires adds != [] && d.stamps == [adds[|adds| - 1].now]
    ensures StampedBy(d, adds)
  {
  }

  // A call publishes nothing, or one delta with its own time.
  lemma PublishesOne(b: Builder, a: Add)
    requires Bounded(b)
    ensures var b' := if a.Int? then AddInt(b, a.u, a.now).b else AddDbl(b, a.v, a.now).b;
            b'.published == b.published ||
            (|b'.published| == |b.published| + 1 && b'.published[..|b.published|] == b.published &&
             b'.published[|b.published|].stamps == [a.now])
  {
  }

  // ---------- merging ----------

  function MergeDelta(s: Snapshot, d: Delta): Snapshot {
    MergeBoth(s, d.ints, d.dbls)
  }

  function MergeDeltas(s: Snapshot, ds: seq<Delta>): Snapshot {
    if ds == [] then s else MergeDelta(MergeDeltas(s, ds[..|ds| - 1]), ds[|ds| - 1])
  }

  lemma {:induction false} MergeJoined(s: Snapshot, ds: seq<Delta>)
    ensures MergeDeltas(s, ds) == MergeBoth(s, AllInts(ds), AllDbls(ds))
  {
    if ds != [] {
      var n := |ds| - 1;
      MergeJoined(s, ds[..n]);
      MergeAppend(s.ints, AllInts(ds[..n]), ds[n].ints);
      MergeAppend(s.dbls, AllDbls(ds[..n]), ds[n].dbls);
    }
  }

  // Every accepted update applied at once, in the order of the calls.
  function ApplyAdds(s: Snapshot, b: Builder, adds: seq<Add>): Snapshot
    requires Bounded(b)
  {
    if adds == [] then s else
    var n := |adds| - 1;
    var before := ApplyAdds(s, b, adds[..n]);
    match adds[n]
    case Int(u, now) =>
      if AddInt(RunAdds(b, adds[..n]).b, u, now).ok then before.(ints := before.ints[u.idx := u.val]) else before
    case Dbl(v, now) =>
      if AddDbl(RunAdds(b, adds[..n]).b, v, now).ok then before.(dbls := before.dbls[v.idx := v.val]) else before
  }

  lemma {:induction false} ApplyAccepted(s: Snapshot, b: Builder, adds: seq<Add>)
    requires Bounded(b)
    ensures var r := RunAdds(b, adds);
            ApplyAdds(s, b, adds) == MergeBoth(s, r.ints, r.dbls)
  {
    if adds != [] {
      var n := |adds| - 1;
      ApplyAccepted(s, b, adds[..n]);
      var before := RunAdds(b, adds[..n]);
      hide AddInt, AddDbl;
      match adds[n]
      case Int(u, _) => assert (before.ints + [u])[..|before.ints|] == before.ints;
      case Dbl(v, _) => assert (before.dbls + [v])[..|before.dbls|] == before.dbls;
    }
  }

  /** Merging the deltas published between begin and a successful end, in order, into any snapshot gives
      what applying every accepted update on its own gives, however the two kinds interleave. */
  lemma BuilderMerge(b0: Builder, symbol: Str, adds: seq<Add>, now: U64, s: Snapshot)
    requires End(RunAdds(Begin(b0, symbol), adds).b, now).ok
    ensures var b := Begin(b0, symbol);
            var e := End(RunAdds(b, adds).b, now).b;
            b.published <= e.published && MergeDeltas(s, Since(b, e)) == ApplyAdds(s, b, adds)
  {
    var b := Begin(b0, symbol);
    EndConserves(b0, symbol, adds, now);
    var e := End(RunAdds(b, adds).b, now).b;
    hide End, RunAdds, Begin;
    MergeJoined(s, Since(b, e));
    ApplyAccepted(s, b, adds);
  }

  // ---------- packing ----------

  // Deltas full of ints; the other full ones are full of doubles.
  function FullInts(ds: seq<Delta>): nat {
    if ds == [] then 0 else FullInts(ds[..|ds| - 1]) + if |ds[|ds| - 1].ints| == INT_DELTA_SIZE then 1 else 0
  }

  lemma {:induction false} FullCount(ds: seq<Delta>)
    requires forall d :: d in ds ==> Full(d)
    ensures FullInts(ds) <= |ds|
    ensures INT_DELTA_SIZE * FullInts(ds) <= |AllInts(ds)|
    ensures DBL_DELTA_SIZE * (|ds| - FullInts(ds)) <= |AllDbls(ds)|
  {
    if ds != [] {
      var n := |ds| - 1;
      assert ds[n] in ds && forall d :: d in ds[..n] ==> d in ds;
      FullCount(ds[..n]);
    }
  }

  lemma FullBound(whole: nat, ints: nat, i: nat, d: nat)
    requires ints <= whole && INT_DELTA_SIZE * ints <= i && DBL_DELTA_SIZE * (whole - ints) <= d
    ensures whole <= i / INT_DELTA_SIZE + d / DBL_DELTA_SIZE
  {
    assert ints <= i / 6 && whole - ints <= d / 18;
  }

  lemma {:induction false} SizeBound(ds: seq<Delta>)
    ensures |AllInts(ds)| <= INT_DELTA_SIZE * |ds| && |AllDbls(ds)| <= DBL_DELTA_SIZE * |ds|
  {
    if ds != [] { SizeBound(ds[..|ds| - 1]); }
  }

  // Full deltas and one more, holding the given numbers of entries in all.
  lemma PackedBy(whole: seq<Delta>, last: Delta, i: nat, d: nat)
    requires forall d :: d in whole ==> Full(d)
    requires |AllInts(whole + [last])| == i && |AllDbls(whole + [last])| == d
    ensures i <= INT_DELTA_SIZE * (|whole| + 1) && d <= DBL_DELTA_SIZE * (|whole| + 1)
    ensures |whole| <= i / INT_DELTA_SIZE + d / DBL_DELTA_SIZE
  {
    hide Full;
    AllAppend(whole, last);
    FullCount(whole);
    SizeBound(whole + [last]);
    hide AllInts, AllDbls, FullInts;
    FullBound(|whole|, FullInts(whole), i, d);
  }

  /** The number of deltas for I accepted ints and D accepted doubles: enough to hold them, and no more
      than the full ones of each kind plus the last. Only the last may be short in both kinds. */
  lemma Packing(b0: Builder, symbol: Str, adds: seq<Add>, now: U64)
    requires End(RunAdds(Begin(b0, symbol), adds).b, now).ok
    ensures var b := Begin(b0, symbol);
            var r := RunAdds(b, adds);
            var e := End(r.b, now).b;
            && b.published <= e.published
            && var ds := Since(b, e);
               && |ds| > 0 && (forall i :: 0 <= i < |ds| - 1 ==> Full(ds[i]))
               && |r.ints| <= INT_DELTA_SIZE * |ds| && |r.dbls| <= DBL_DELTA_SIZE * |ds|
               && |ds| <= |r.ints| / INT_DELTA_SIZE + |r.dbls| / DBL_DELTA_SIZE + 1
               && forall d :: d in ds ==> d.symbol == symbol
  {
    var b := Begin(b0, symbol);
    var r := RunAdds(b, adds);
    Conservation(b0, symbol, adds);
    EndConserves(b0, symbol, adds, now);
    var e := End(r.b, now).b;
    var whole := Since(b, r.b);
    var last := Current(r.b, now);
    assert forall d :: d in whole ==> Full(d) && d.symbol == symbol by {
      assert AllSealed(whole, symbol);
    }
    hide RunAdds, End, Begin, Current, AllInts, AllDbls, Full, Conserved;
    PackedBy(whole, last, |r.ints|, |r.dbls|);
    assert forall i :: 0 <= i < |whole| ==> (whole + [last])[i] in whole;
  }

  /** A delta of the builder fits an archive exactly when its symbol and entries leave room; a full
      one does exactly for symbols of at most 1802 characters. */
  lemma BuiltDeltaFits(d: Delta)
    requires |d.stamps| == 1
    ensures Fits(MdDeltaMsg(d)) <==> |d.symbol| + 6 * |d.ints| + 10 * |d.dbls| <= 2018
    ensures |d.symbol| <= 1802 ==> Fits(MdDeltaMsg(d))
    ensures |d.ints| == INT_DELTA_SIZE && |d.dbls| == DBL_DELTA_SIZE ==> (Fits(MdDeltaMsg(d)) <==> |d.symbol| <= 1802)
  {
    DeltaSize(d);
  }

  // ---------- the builder as the program holds it ----------

  class Publisher {
    var answers: seq<bool>
    var published: seq<Delta>

    constructor (answers: seq<bool>)
      ensures this.answers == answers && published == []
    {
      this.answers := answers;
      published := [];
    }

    method Publish(d: Delta) returns (ok: bool)
      modifies this
      ensures ok == (old(answers) == [] || old(answers)[0])
      ensures answers == if old(answers) == [] then [] else old(answers)[1..]
      ensures published == if ok then old(published) + [d] else old(published)
    {
      ok := answers == [] || answers[0];
      if answers != [] { answers := answers[1..]; }
      if ok { published := published + [d]; }
    }
  }

  class MdDeltaBuilder {
    const publisher: Publisher
    var symbol: Str
    var deltaSymbol: Str
    const intIdx: array<U16>
    const intVal: array<I32>
    const dblIdx: array<U16>
    const dblVal: array<Double>
    var intN: nat
    var dblN: nat

    ghost predicate Inv()
      reads this
    {
      && intIdx.Length == intVal.Length == INT_DELTA_SIZE && intN <= INT_DELTA_SIZE
      && dblIdx.Length == dblVal.Length == DBL_DELTA_SIZE && dblN <= DBL_DELTA_SIZE
      && intIdx != dblIdx && intVal as object != intIdx && intVal as object != dblIdx
      && dblVal as object != intIdx && dblVal as object != dblIdx && dblVal as object != intVal
    }

    ghost function View(): (b: Builder)
      requires Inv()
      reads this, publisher, intIdx, intVal, dblIdx, dblVal
      ensures Bounded(b)
    {
      Builder(symbol, deltaSymbol, Zip(intIdx[..intN], intVal[..intN]), Zip(dblIdx[..dblN], dblVal[..dblN]),
              publisher.answers, publisher.published)
    }

    constructor (publisher: Publisher)
      ensures Inv() && View() == Builder([], [], [], [], publisher.answers, publisher.published)
      ensures this.publisher == publisher && fresh(intIdx) && fresh(intVal) && fresh(dblIdx) && fresh(dblVal)
    {
      this.publisher := publisher;
      symbol, deltaSymbol := [], [];
      intIdx := new U16[INT_DELTA_SIZE](_ => 0);
      intVal := new I32[INT_DELTA_SIZE](_ => 0);
      dblIdx := new U16[DBL_DELTA_SIZE](_ => 0);
      dblVal := new Double[DBL_DELTA_SIZE](_ => 0);
      intN, dblN := 0, 0;
    }

    method InitDelta()
      requires Inv()
      modifies this`deltaSymbol, this`intN, this`dblN
      ensures Inv() && View() == Init(old(View()))
    {
      deltaSymbol := symbol;
      intN, dblN := 0, 0;
    }

    method BeginDelta(s: Str)
      requires Inv()
      modifies this`symbol, this`deltaSymbol, this`intN, this`dblN
      ensures Inv() && View() == Begin(old(View()), s)
    {
      symbol := s;
      InitDelta();
    }

    // The delta is copied out of the arrays, up to the counts.
    method FlushDelta(now: U64) returns (ok: bool)
      requires Inv()
      modifies publisher
      ensures Inv() && Outcome(ok, View()) == Flush(old(View()), now)
    {
      var ints := Zip(intIdx[..intN], intVal[..intN]);
      var dbls := Zip(dblIdx[..dblN], dblVal[..dblN]);
      ok := publisher.Publish(MdDelta(deltaSymbol, ints, dbls, 0, [now]));
    }

    method FlushAndBeginDelta(now: U64) returns (ok: bool)
      requires Inv()
      modifies publisher, this`deltaSymbol, this`intN, this`dblN
      ensures Inv() && Outcome(ok, View()) == FlushAndBegin(old(View()), now)
    {
      ok := FlushDelta(now);
      if ok {
        InitDelta();
      }
    }

    method AddIntData(i: U16, v: I32, now: U64) returns (ok: bool)
      requires Inv()
      modifies publisher, this`deltaSymbol, this`intN, this`dblN, intIdx, intVal
      ensures Inv() && Outcome(ok, View()) == AddInt(old(View()), Update(i, v), now)
    {
      if intN == INT_DELTA_SIZE {
        ok := FlushAndBeginDelta(now);
        if !ok {
          return false;
        }
      }
      ghost var before := View();
      intIdx[intN] := i;
      intVal[intN] := v;
      intN := intN + 1;
      ok := true;
      assert View().ints == before.ints + [Update(i, v)];
    }

    method AddDblData(i: U16, v: Double, now: U64) returns (ok: bool)
      requires Inv()
      modifies publisher, this`deltaSymbol, this`intN, this`dblN, dblIdx, dblVal
      ensures Inv() && Outcome(ok, View()) == AddDbl(old(View()), Update(i, v), now)
    {
      if dblN == DBL_DELTA_SIZE {
        ok := FlushAndBeginDelta(now);
        if !ok {
          return false;
        }
      }
      ghost var before := View();
      dblIdx[dblN] := i;
      dblVal[dblN] := v;
      dblN := dblN + 1;
      ok := true;
      assert View().dbls == before.dbls + [Update(i, v)];
    }

    method EndDelta(now: U64) returns (ok: bool)
      requires Inv()
      modifies publisher, this`symbol, this`intN, this`dblN
      ensures Inv() && Outcome(ok, View()) == End(old(View()), now)
    {
      ok := FlushDelta(now);
      if ok {
        intN, dblN := 0, 0;
        symbol := [];
      }
    }
  }
}
