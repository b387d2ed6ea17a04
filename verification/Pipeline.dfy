/**
 The whole path of market data: updates go into a delta builder, its deltas over a TCP connection,
 and what arrives is merged into a snapshot.
 */
module Pipelines {
  import opened Words
  import opened Messages
  import opened Frames
  import S = SocketQueues
  import opened Readers
  import opened EndToEnd
  import N = Snapshots
  import B = DeltaBuilders

  function DeltaSends(ds: seq<Delta>, stamps: seq<U64>): (r: seq<Send>)
    requires |stamps| == |ds|
    ensures |r| == |ds|
  {
    seq(|ds|, i requires 0 <= i < |ds| => Send(MdDeltaMsg(ds[i]), stamps[i]))
  }

  // The deltas among the delivered messages.
  function Deltas(ms: seq<Msg>): seq<Delta> {
    if ms == [] then [] else
    var n := |ms| - 1;
    Deltas(ms[..n]) + if ms[n].MdDeltaMsg? then [ms[n].delta] else []
  }

  lemma {:induction false} AllKept(sends: seq<Send>, kept: seq<bool>)
    requires |kept| <= |sends| && forall i :: 0 <= i < |kept| ==> kept[i]
    ensures KeptFrames(sends, kept) == seq(|kept|, i requires 0 <= i < |kept| => FrameOf(sends, i))
  {
    if kept != [] {
      var n := |kept| - 1;
      AllKept(sends, kept[..n]);
    }
  }

  lemma {:induction false} VisibleMessages(fs: seq<Frame>)
    ensures Visible(false, fs) == seq(|fs|, i requires 0 <= i < |fs| => fs[i].msg)
  {
    if fs != [] { VisibleMessages(fs[1..]); }
  }

  lemma {:induction false} DeltasOf(ds: seq<Delta>, ms: seq<Msg>)
    requires |ms| == |ds| && forall i :: 0 <= i < |ds| ==> ms[i] == MdDeltaMsg(ds[i])
    ensures Deltas(ms) == ds
  {
    if ds != [] {
      var n := |ds| - 1;
      DeltasOf(ds[..n], ms[..n]);
      assert ds == ds[..n] + [ds[n]];
    }
  }

  // Nothing dropped, the queue drained and every byte arrived.
  ghost predicate Arrived(rule: S.OffsetRule, script: seq<S.Outcome>, sends: seq<Send>, arrivals: seq<Bytes>) {
    var run := S.RunSends(rule, script, Records(sends));
    && (rule == S.Accumulating || S.RunResumesWhole(script, Records(sends)))
    && run.ok && (forall i :: 0 <= i < |run.kept| ==> run.kept[i])
    && run.q.buffers == [] && Join(arrivals) == run.q.wire
  }

  // Deltas that fit and arrive are delivered, all of them and in order.
  lemma DeltasArrive(ds: seq<Delta>, stamps: seq<U64>, rule: S.OffsetRule, script: seq<S.Outcome>, arrivals: seq<Bytes>)
    requires |stamps| == |ds| && forall d :: d in ds ==> Fits(MdDeltaMsg(d))
    requires Arrived(rule, script, DeltaSends(ds, stamps), arrivals)
    ensures var got := ReadAll(false, START, arrivals);
            got.ok && Deltas(got.r.delivered) == ds
  {
    hide S.RunSends, ReadAll, Fits;
    var sends := DeltaSends(ds, stamps);
    var run := S.RunSends(rule, script, Records(sends));
    assert forall m :: m in sends ==> Fits(m.msg);
    var k := Delivery(rule, script, sends, false, arrivals);
    var kept := KeptFrames(sends, run.kept);
    KeptAll(rule, script, sends);
    AllKept(sends, run.kept);
    VisibleMessages(kept);
    assert kept[..k] == kept;
    DeltasOf(ds, ReadAll(false, START, arrivals).r.delivered);
  }

  // A run that did not fail decided on every record.
  lemma KeptAll(rule: S.OffsetRule, script: seq<S.Outcome>, sends: seq<Send>)
    requires S.RunSends(rule, script, Records(sends)).ok
    ensures |S.RunSends(rule, script, Records(sends)).kept| == |sends|
  {
    RunLength(rule, script, Records(sends));
  }

  lemma {:induction false} RunLength(rule: S.OffsetRule, script: seq<S.Outcome>, records: seq<Bytes>)
    ensures S.RunSends(rule, script, records).ok ==> |S.RunSends(rule, script, records).kept| == |records|
  {
    hide S.SendBuffer;
    if records != [] { RunLength(rule, script, records[..|records| - 1]); }
  }

  // The deltas that a successful end leaves published since begin.
  ghost predicate Published(b0: B.Builder, symbol: Str, adds: seq<B.Add>, now: U64, ds: seq<Delta>) {
    var b := B.Begin(b0, symbol);
    var e := B.End(B.RunAdds(b, adds).b, now);
    e.ok && b.published <= e.b.published && ds == B.Since(b, e.b)
  }

  /** Updates added between begin and a successful end, for a symbol that leaves room for a full delta,
      published over a connection that dropped nothing and has drained: once all of the wire has
      arrived, however it was cut, merging what was delivered into any snapshot gives what applying
      every accepted update on its own gives. */
  lemma UpdatesArrive(b0: B.Builder, symbol: Str, adds: seq<B.Add>, now: U64, ds: seq<Delta>, stamps: seq<U64>,
                      rule: S.OffsetRule, script: seq<S.Outcome>, arrivals: seq<Bytes>, s: N.Snapshot)
    requires |symbol| <= 1802 && Published(b0, symbol, adds, now, ds)
    requires |stamps| == |ds| && Arrived(rule, script, DeltaSends(ds, stamps), arrivals)
    ensures var got := ReadAll(false, START, arrivals);
            got.ok && B.MergeDeltas(s, Deltas(got.r.delivered)) == B.ApplyAdds(s, B.Begin(b0, symbol), adds)
  {
    BuiltFit(b0, symbol, adds, now, ds);
    BuiltMerge(b0, symbol, adds, now, ds, s);
    hide Published, Arrived, ReadAll, Fits, B.MergeDeltas, B.ApplyAdds;
    DeltasArrive(ds, stamps, rule, script, arrivals);
  }

  /** In particular over a socket that takes whatever it is offered. */
  lemma UpdatesArriveAtOnce(b0: B.Builder, symbol: Str, adds: seq<B.Add>, now: U64, ds: seq<Delta>, stamps: seq<U64>,
                            rule: S.OffsetRule, script: seq<S.Outcome>, s: N.Snapshot)
    requires |symbol| <= 1802 && Published(b0, symbol, adds, now, ds)
    requires |stamps| == |ds| <= |script|
    requires forall i :: 0 <= i < |script| ==> script[i] == S.Accept(ARCHIVE_BUFF_CAPACITY)
    ensures var wire := S.RunSends(rule, script, Records(DeltaSends(ds, stamps))).q.wire;
            var got := ReadAll(false, START, [wire]);
            got.ok && B.MergeDeltas(s, Deltas(got.r.delivered)) == B.ApplyAdds(s, B.Begin(b0, symbol), adds)
  {
    var sends := DeltaSends(ds, stamps);
    BuiltFit(b0, symbol, adds, now, ds);
    hide Published;
    forall i | 0 <= i < |sends| ensures 0 < |Records(sends)[i]| <= ARCHIVE_BUFF_CAPACITY {
      assert ds[i] in ds;
      RecordOfFitting(sends[i].msg, FrameOf(sends, i).session, sends[i].stamp);
    }
    hide Fits, Records, FrameOf, FrameBytes, S.RunSends, Arrived;
    WillingArrived(rule, script, sends);
    var wire := S.RunSends(rule, script, Records(sends)).q.wire;
    UpdatesArrive(b0, symbol, adds, now, ds, stamps, rule, script, [wire], s);
  }

  lemma WillingArrived(rule: S.OffsetRule, script: seq<S.Outcome>, sends: seq<Send>)
    requires S.TakesAll(script, Records(sends))
    ensures Arrived(rule, script, sends, [S.RunSends(rule, script, Records(sends)).q.wire])
  {
    var records := Records(sends);
    S.WillingSocket(rule, script, records);
    S.WillingSocket(S.AsWritten, script, records);
    S.RunsAgree(script, records);
    hide S.RunSends, S.RunResumesWhole, Records, S.TakesAll;
    var wire := S.RunSends(rule, script, records).q.wire;
    assert Join([wire]) == wire + [];
  }

  lemma BuiltMerge(b0: B.Builder, symbol: Str, adds: seq<B.Add>, now: U64, ds: seq<Delta>, s: N.Snapshot)
    requires Published(b0, symbol, adds, now, ds)
    ensures B.MergeDeltas(s, ds) == B.ApplyAdds(s, B.Begin(b0, symbol), adds)
  {
    B.BuilderMerge(b0, symbol, adds, now, s);
  }

  // Every delta of the builder fits an archive.
  lemma BuiltFit(b0: B.Builder, symbol: Str, adds: seq<B.Add>, now: U64, ds: seq<Delta>)
    requires |symbol| <= 1802 && Published(b0, symbol, adds, now, ds)
    ensures forall d :: d in ds ==> Fits(MdDeltaMsg(d))
  {
    var b := B.Begin(b0, symbol);
    var r := B.RunAdds(b, adds);
    B.Conservation(b0, symbol, adds);
    B.EndConserves(b0, symbol, adds, now);
    forall d | d in ds ensures Fits(MdDeltaMsg(d)) {
      assert d in B.Since(b, r.b) || d == B.Current(r.b, now);
      B.BuiltDeltaFits(d);
    }
  }
}
