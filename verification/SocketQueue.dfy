/**
 The outbound queue of a TCP connection over a non-blocking socket: direct writes, a cache of
 records with a resume offset in front, and dropping of records between two water marks.
 What the socket answers is a script, so a statement for all scripts covers every socket.
 */
module SocketQueues {
  import opened Words

  const SOCKET_OUT_Q_MAX_SIZE := 1_024_000
  const HIGH_WATER_MARK := 716_800
  const LOW_WATER_MARK := 10_240

  // One answer of send(): closed by the peer (0), would block or failed (-1), or so many bytes taken.
  datatype Outcome = PeerClosed | WouldBlock | Broken | Accept(n: nat)

  // A cached copy of a record and the offset its next write starts from.
  datatype Rec = Rec(data: Bytes, start: nat)

  // How the offset is updated when a cached record is sent in part. The code stores the count of
  // the last write; counting from the old offset is what resuming the record takes.
  datatype OffsetRule = AsWritten | Accumulating

  // forgotten adds up the offsets that were overwritten without being counted in.
  datatype Queue = Queue(buffers: seq<Rec>, throttle: bool, script: seq<Outcome>, wire: Bytes, forgotten: nat)

  datatype Reply = Gone | Again | Sent(n: nat)

  // When the script is used up the socket blocks.
  function Respond(script: seq<Outcome>, len: nat): (r: Reply)
    ensures r.Sent? ==> 1 <= r.n <= len && script != []
  {
    if script == [] then Again else
    match script[0]
    case PeerClosed => Gone
    case Broken => Gone
    case WouldBlock => Again
    case Accept(n) => if len == 0 then Gone else Sent(if n < 1 then 1 else if n > len then len else n)
  }

  function Consumed(q: Queue, sent: Bytes): Queue {
    q.(script := if q.script == [] then [] else q.script[1..], wire := q.wire + sent)
  }

  function PopFront(q: Queue): Queue
    requires q.buffers != []
  {
    var left := q.buffers[1..];
    q.(buffers := left, throttle := q.throttle && |left| >= LOW_WATER_MARK)
  }

  function Resume(rule: OffsetRule, q: Queue, n: nat): Queue
    requires q.buffers != []
  {
    var b := q.buffers[0];
    match rule
    case AsWritten => q.(buffers := q.buffers[0 := b.(start := n)], forgotten := q.forgotten + b.start)
    case Accumulating => q.(buffers := q.buffers[0 := b.(start := b.start + n)])
  }

  datatype DrainResult = Drained(ok: bool, q: Queue)

  function Remaining(b: Rec): Bytes {
    if b.start <= |b.data| then b.data[b.start..] else []
  }

  // One successful write of n bytes from the front record.
  function Step(rule: OffsetRule, q: Queue, n: nat): Queue
    requires q.buffers != [] && n <= |Remaining(q.buffers[0])|
  {
    var rest := Remaining(q.buffers[0]);
    var q' := Consumed(q, rest[..n]);
    if n == |rest| then PopFront(q') else Resume(rule, q', n)
  }

  function SendCache(rule: OffsetRule, q: Queue): DrainResult
    decreases |q.script|
  {
    if q.buffers == [] then Drained(true, q) else
    var rest := Remaining(q.buffers[0]);
    match Respond(q.script, |rest|)
    case Gone => Drained(false, Consumed(q, []))
    case Again => Drained(true, Consumed(q, []))
    case Sent(n) => SendCache(rule, Step(rule, q, n))
  }

  // ok is the result of the call; kept says the record was not dropped by throttling.
  datatype SendResult = SendResult(ok: bool, kept: bool, q: Queue)

  function Push(q: Queue, data: Bytes, start: nat): SendResult {
    var size := |q.buffers|;
    SendResult(size < SOCKET_OUT_Q_MAX_SIZE, true, q.(buffers := q.buffers + [Rec(data, start)]))
  }

  function AddToCache(q: Queue, data: Bytes, start: nat): SendResult {
    var size := |q.buffers|;
    if q.throttle then
      if size < LOW_WATER_MARK then Push(q.(throttle := false), data, start)
      else SendResult(true, false, q)
    else if size > HIGH_WATER_MARK then SendResult(true, false, q.(throttle := true))
    else Push(q, data, start)
  }

  function SendDirect(q: Queue, data: Bytes): SendResult {
    match Respond(q.script, |data|)
    case Gone => SendResult(false, false, Consumed(q, []))
    case Again => AddToCache(Consumed(q, []), data, 0)
    case Sent(n) =>
      var q' := Consumed(q, data[..n]);
      if n < |data| then AddToCache(q', data, n) else SendResult(true, true, q')
  }

  function SendBuffer(rule: OffsetRule, q: Queue, data: Bytes): SendResult {
    if q.buffers == [] then SendDirect(q, data) else
    var d := SendCache(rule, q);
    if !d.ok then SendResult(false, false, d.q)
    else if d.q.buffers == [] then SendDirect(d.q, data)
    else AddToCache(d.q, data, 0)
  }

  // ---------- the invariant ----------

  predicate Valid(q: Queue) {
    && (q.throttle ==> |q.buffers| >= LOW_WATER_MARK)
    && |q.buffers| <= HIGH_WATER_MARK + 1
    && (forall i :: 0 <= i < |q.buffers| ==> q.buffers[i].start < |q.buffers[i].data|)
    && (forall i :: 0 < i < |q.buffers| ==> q.buffers[i].start == 0)
  }

  function Unsent(buffers: seq<Rec>): Bytes {
    if buffers == [] then [] else Unsent(buffers[..|buffers| - 1]) + Remaining(buffers[|buffers| - 1])
  }

  // Everything that has left or still waits to leave.
  function Stream(q: Queue): Bytes {
    q.wire + Unsent(q.buffers)
  }

  lemma {:induction false} UnsentFront(buffers: seq<Rec>)
    requires buffers != []
    ensures Unsent(buffers) == Remaining(buffers[0]) + Unsent(buffers[1..])
  {
    var n := |buffers| - 1;
    if n > 0 {
      UnsentFront(buffers[..n]);
      assert buffers[..n][1..] == buffers[1..][..n - 1];
    }
  }

  // From q to q' the stream has gained exactly these bytes, unless an offset was forgotten; then it
  // is longer than that by the offset.
  predicate Gains(q: Queue, q': Queue, added: Bytes) {
    && q.wire <= q'.wire
    && q.forgotten <= q'.forgotten
    && |Stream(q')| == |Stream(q)| + |added| + (q'.forgotten - q.forgotten)
    && (q'.forgotten == q.forgotten ==> Stream(q') == Stream(q) + added)
  }

  lemma GainsTransitive(q0: Queue, q1: Queue, q2: Queue, a: Bytes, b: Bytes)
    requires Gains(q0, q1, a) && Gains(q1, q2, b)
    ensures Gains(q0, q2, a + b)
  {
    hide Stream;
    assert (Stream(q0) + a) + b == Stream(q0) + (a + b);
  }

  // Bytes that move from the queue to the wire stay where they are in the stream.
  lemma GainsFrom(q: Queue, q': Queue, sent: Bytes)
    requires q'.wire == q.wire + sent && q.forgotten <= q'.forgotten
    requires |Unsent(q'.buffers)| == |Unsent(q.buffers)| - |sent| + (q'.forgotten - q.forgotten)
    requires q'.forgotten == q.forgotten ==> sent + Unsent(q'.buffers) == Unsent(q.buffers)
    ensures Gains(q, q', [])
  {
    hide Unsent;
    Assoc(q.wire, sent, Unsent(q'.buffers));
    assert Stream(q) + [] == Stream(q);
  }

  lemma PopKeeps(q: Queue)
    requires Valid(q) && q.buffers != []
    ensures var q' := PopFront(Consumed(q, Remaining(q.buffers[0])));
            Valid(q') && Gains(q, q', []) && |Unsent(q'.buffers)| == |Unsent(q.buffers)| - |Remaining(q.buffers[0])|
  {
    UnsentFront(q.buffers);
    hide Unsent, Gains, Remaining;
    GainsFrom(q, PopFront(Consumed(q, Remaining(q.buffers[0]))), Remaining(q.buffers[0]));
  }

  // A partial write of n bytes from the front record.
  function Partial(rule: OffsetRule, q: Queue, n: nat): Queue
    requires q.buffers != [] && n <= |Remaining(q.buffers[0])|
  {
    Resume(rule, Consumed(q, Remaining(q.buffers[0])[..n]), n)
  }

  lemma ResumeRemaining(rule: OffsetRule, q: Queue, n: nat)
    requires Valid(q) && q.buffers != [] && 1 <= n < |Remaining(q.buffers[0])|
    ensures var q' := Partial(rule, q, n);
            var rest, rest' := Remaining(q.buffers[0]), Remaining(q'.buffers[0]);
            && |q'.buffers| == |q.buffers| && q'.buffers[1..] == q.buffers[1..]
            && q.forgotten <= q'.forgotten && (rule == Accumulating ==> q'.forgotten == q.forgotten)
            && |rest'| == |rest| - n + (q'.forgotten - q.forgotten)
            && (q'.forgotten == q.forgotten ==> rest' == rest[n..])
  {
  }

  lemma SplitFront(rest: Bytes, n: nat, others: Bytes)
    requires n <= |rest|
    ensures rest[..n] + (rest[n..] + others) == rest + others
  {
    assert rest[..n] + rest[n..] == rest;
    Assoc(rest[..n], rest[n..], others);
  }

  lemma ResumeUnsent(rule: OffsetRule, q: Queue, n: nat)
    requires Valid(q) && q.buffers != [] && 1 <= n < |Remaining(q.buffers[0])|
    ensures var q' := Partial(rule, q, n);
            && |Unsent(q'.buffers)| == |Unsent(q.buffers)| - n + (q'.forgotten - q.forgotten)
            && (q'.forgotten == q.forgotten ==> Remaining(q.buffers[0])[..n] + Unsent(q'.buffers) == Unsent(q.buffers))
  {
    hide Partial, Remaining, Unsent, Valid;
    ResumeRemaining(rule, q, n);
    UnsentFront(q.buffers);
    UnsentFront(Partial(rule, q, n).buffers);
    SplitFront(Remaining(q.buffers[0]), n, Unsent(q.buffers[1..]));
  }

  lemma ResumeValid(rule: OffsetRule, q: Queue, n: nat)
    requires Valid(q) && q.buffers != [] && 1 <= n < |Remaining(q.buffers[0])|
    ensures Valid(Partial(rule, q, n))
  {
  }

  lemma ResumeKeeps(rule: OffsetRule, q: Queue, n: nat)
    requires Valid(q) && q.buffers != [] && 1 <= n < |Remaining(q.buffers[0])|
    ensures var q' := Partial(rule, q, n);
            && Valid(q') && Gains(q, q', [])
            && (rule == Accumulating ==> q'.forgotten == q.forgotten && |Unsent(q'.buffers)| == |Unsent(q.buffers)| - n)
  {
    ResumeValid(rule, q, n);
    ResumeUnsent(rule, q, n);
    ResumeRemaining(rule, q, n);
    assert Partial(rule, q, n).wire == q.wire + Remaining(q.buffers[0])[..n];
    hide Unsent, Remaining, Gains, Valid, Partial;
    GainsFrom(q, Partial(rule, q, n), Remaining(q.buffers[0])[..n]);
  }

  lemma StepKeeps(rule: OffsetRule, q: Queue, n: nat)
    requires Valid(q) && q.buffers != [] && 1 <= n <= |Remaining(q.buffers[0])|
    ensures var q' := Step(rule, q, n);
            && Valid(q') && Gains(q, q', [])
            && (rule == Accumulating ==> q'.forgotten == q.forgotten && |Unsent(q'.buffers)| == |Unsent(q.buffers)| - n)
  {
    var rest := Remaining(q.buffers[0]);
    if n == |rest| {
      assert rest[..n] == rest;
      hide Gains, Unsent, Remaining, Valid;
      PopKeeps(q);
    } else {
      hide Gains, Unsent, Remaining, Valid;
      ResumeKeeps(rule, q, n);
    }
  }

  // Why the call came back: the script shows the answer that stopped it.
  predicate StoppedBy(q: Queue, q': Queue, blocked: bool) {
    && |q'.script| <= |q.script|
    && q'.script == q.script[|q.script| - |q'.script|..]
    && if blocked then q'.script == [] || (|q'.script| < |q.script| && q.script[|q.script| - |q'.script| - 1] == WouldBlock)
       else |q'.script| < |q.script| && q.script[|q.script| - |q'.script| - 1] in {PeerClosed, Broken}
  }

  lemma StoppedLater(q0: Queue, q1: Queue, q2: Queue, blocked: bool)
    requires |q1.script| <= |q0.script| && q1.script == q0.script[|q0.script| - |q1.script|..]
    requires StoppedBy(q1, q2, blocked)
    ensures StoppedBy(q0, q2, blocked)
  {
  }

  lemma {:induction false} ScriptSuffix(rule: OffsetRule, q: Queue)
    ensures var s := SendCache(rule, q).q.script;
            |s| <= |q.script| && s == q.script[|q.script| - |s|..]
    decreases |q.script|
  {
    if q.buffers != [] {
      match Respond(q.script, |Remaining(q.buffers[0])|)
      case Gone =>
      case Again =>
      case Sent(n) => ScriptSuffix(rule, Step(rule, q, n));
    }
  }

  lemma {:induction false} DrainStops(rule: OffsetRule, q: Queue)
    requires Valid(q)
    ensures var d := SendCache(rule, q);
            && (!d.ok ==> StoppedBy(q, d.q, false))
            && (d.ok && d.q.buffers != [] ==> StoppedBy(q, d.q, true))
    decreases |q.script|
  {
    if q.buffers != [] {
      match Respond(q.script, |Remaining(q.buffers[0])|)
      case Gone =>
      case Again =>
      case Sent(n) =>
        var q' := Step(rule, q, n);
        StepKeeps(rule, q, n);
        DrainStops(rule, q');
        var d := SendCache(rule, q');
        assert q'.script == q.script[1..];
        hide StoppedBy, Step, SendCache;
        if !d.ok {
          StoppedLater(q, q', d.q, false);
        } else if d.q.buffers != [] {
          StoppedLater(q, q', d.q, true);
        }
    }
  }

  lemma {:induction false} DrainKeeps(rule: OffsetRule, q: Queue)
    requires Valid(q)
    ensures var d := SendCache(rule, q);
            Valid(d.q) && Gains(q, d.q, []) && (rule == Accumulating ==> d.q.forgotten == q.forgotten)
    decreases |q.script|
  {
    hide Valid, Gains;
    if q.buffers == [] {
      GainsNothing(q, q);
    } else {
      match Respond(q.script, |Remaining(q.buffers[0])|)
      case Gone => ConsumedNothing(q);
      case Again => ConsumedNothing(q);
      case Sent(n) =>
        var q' := Step(rule, q, n);
        StepKeeps(rule, q, n);
        DrainKeeps(rule, q');
        GainsTransitive(q, q', SendCache(rule, q').q, [], []);
        var none: Bytes := [];
        assert none + none == none;
    }
  }

  lemma GainsNothing(q: Queue, q': Queue)
    requires q'.buffers == q.buffers && q'.wire == q.wire && q'.forgotten == q.forgotten
    ensures Gains(q, q', [])
  {
    assert Stream(q) + [] == Stream(q);
  }

  lemma ConsumedNothing(q: Queue)
    requires Valid(q)
    ensures Valid(Consumed(q, [])) && Gains(q, Consumed(q, []), [])
  {
    assert q.wire + [] == q.wire;
    GainsNothing(q, Consumed(q, []));
  }

  /** Draining the cache: the invariant is kept, no byte changes its place in the stream unless an
      offset is forgotten, and the call ends with an empty cache, a blocked socket or a failed one. */
  lemma SendCacheKeeps(rule: OffsetRule, q: Queue)
    requires Valid(q)
    ensures var d := SendCache(rule, q);
            && Valid(d.q) && Gains(q, d.q, []) && (rule == Accumulating ==> d.q.forgotten == q.forgotten)
            && (!d.ok ==> StoppedBy(q, d.q, false))
            && (d.ok && d.q.buffers != [] ==> StoppedBy(q, d.q, true))
  {
    hide Valid, Gains, StoppedBy;
    DrainKeeps(rule, q);
    DrainStops(rule, q);
  }

  /** With accumulating offsets each successful write uses up unsent bytes, so whatever the socket
      answers, a drain makes at most one more call than there are bytes to send. */
  lemma {:induction false} DrainBound(q: Queue)
    requires Valid(q)
    ensures var q' := SendCache(Accumulating, q).q;
            |q.script| - |q'.script| <= |Unsent(q.buffers)| - |Unsent(q'.buffers)| + 1
    decreases |q.script|
  {
    if q.buffers != [] {
      match Respond(q.script, |Remaining(q.buffers[0])|)
      case Gone =>
      case Again =>
      case Sent(n) =>
        StepKeeps(Accumulating, q, n);
        DrainBound(Step(Accumulating, q, n));
    }
  }

  // ---------- when the offset as written is right ----------

  // The guard of the overwritten offset, on the cached records and the answers still to come: no
  // record that has an offset is sent in part again.
  predicate ResumedWhole(buffers: seq<Rec>, script: seq<Outcome>)
    decreases |script|
  {
    if buffers == [] then true else
    var b, len := buffers[0], |Remaining(buffers[0])|;
    match Respond(script, len)
    case Gone => true
    case Again => true
    case Sent(n) =>
      if n == len then ResumedWhole(buffers[1..], script[1..])
      else b.start == 0 && ResumedWhole(buffers[0 := b.(start := n)], script[1..])
  }

  // A write that the guard allows is the same under both rules.
  lemma StepGuard(q: Queue, n: nat)
    requires Valid(q) && q.buffers != [] && 1 <= n <= |Remaining(q.buffers[0])|
    ensures var b := q.buffers[0];
            var q' := Step(AsWritten, q, n);
            && (n == |Remaining(b)| || b.start == 0 ==> Step(Accumulating, q, n) == q' && q'.forgotten == q.forgotten)
            && (n != |Remaining(b)| && b.start != 0 ==> q'.forgotten > q.forgotten)
            && q'.buffers == (if n == |Remaining(b)| then q.buffers[1..] else q.buffers[0 := b.(start := n)])
            && q'.script == (if q.script == [] then [] else q.script[1..])
  {
  }

  /** A drain as written does what accumulating offsets do, and leaves every byte its place in the
      stream, exactly when no record that has an offset is sent in part again. */
  lemma {:induction false} RulesAgree(q: Queue)
    requires Valid(q)
    ensures ResumedWhole(q.buffers, q.script) <==> SendCache(AsWritten, q) == SendCache(Accumulating, q)
    ensures ResumedWhole(q.buffers, q.script) <==> Stream(SendCache(AsWritten, q).q) == Stream(q)
    ensures ResumedWhole(q.buffers, q.script) <==> SendCache(AsWritten, q).q.forgotten == q.forgotten
    decreases |q.script|
  {
    AgreeRules(q);
    DrainKeeps(AsWritten, q);
    hide ResumedWhole, SendCache, Valid, Stream;
    assert Stream(q) + [] == Stream(q);
  }

  lemma {:induction false} AgreeRules(q: Queue)
    requires Valid(q)
    ensures ResumedWhole(q.buffers, q.script) <==> SendCache(AsWritten, q) == SendCache(Accumulating, q)
    ensures ResumedWhole(q.buffers, q.script) <==> SendCache(AsWritten, q).q.forgotten == q.forgotten
    decreases |q.script|
  {
    DrainKeeps(Accumulating, q);
    if q.buffers != [] {
      match Respond(q.script, |Remaining(q.buffers[0])|)
      case Gone =>
      case Again =>
      case Sent(n) =>
        var q' := Step(AsWritten, q, n);
        StepKeeps(AsWritten, q, n);
        StepGuard(q, n);
        DrainGrows(q');
        hide Step, Valid;
        AgreeRules(q');
    }
  }

  lemma DrainGrows(q: Queue)
    requires Valid(q)
    ensures q.forgotten <= SendCache(AsWritten, q).q.forgotten
  {
    DrainKeeps(AsWritten, q);
  }

  // The same for one send_buffer call, whose drain is the only place where an offset is overwritten.
  lemma CallsAgree(q: Queue, data: Bytes)
    requires Valid(q) && data != []
    ensures ResumedWhole(q.buffers, q.script) <==> SendBuffer(AsWritten, q, data) == SendBuffer(Accumulating, q, data)
    ensures ResumedWhole(q.buffers, q.script) <==> SendBuffer(AsWritten, q, data).q.forgotten == q.forgotten
  {
    AgreeRules(q);
    SendBufferKeeps(Accumulating, q, data);
    DrainKeeps(AsWritten, q);
    var d := SendCache(AsWritten, q);
    hide SendCache, Valid, Gains, StoppedBy, ResumedWhole;
    if q.buffers == [] {
      DirectForgets(q, data);
    } else if d.ok && d.q.buffers == [] {
      DirectForgets(d.q, data);
    }
  }

  lemma DirectForgets(q: Queue, data: Bytes)
    ensures SendDirect(q, data).q.forgotten == q.forgotten
  {
  }

  // ---------- when a drain as written ends ----------

  // What the first i answers leave as the offset of a front record resumed at s.
  function Offset(s: nat, script: seq<Outcome>, i: nat): nat
    requires i <= |script|
  {
    if i == 0 || !script[i - 1].Accept? then s else if script[i - 1].n < 1 then 1 else script[i - 1].n
  }

  // Two consecutive numbers among the first offset and the answers reach the length of the record.
  predicate Reaches(len: nat, s: nat, script: seq<Outcome>, i: nat)
    requires i < |script|
  {
    Offset(s, script, i) + Offset(s, script, i + 1) >= len
  }

  // The socket keeps taking bytes.
  predicate AllAccept(script: seq<Outcome>) {
    forall i :: 0 <= i < |script| ==> script[i].Accept?
  }

  predicate FirstReach(len: nat, s: nat, script: seq<Outcome>, i: nat)
    requires i < |script|
  {
    Reaches(len, s, script, i) && forall j :: 0 <= j < i ==> !Reaches(len, s, script, j)
  }

  // The queue behind the front record, once i + 1 more answers have been used up.
  predicate FrontGone(q: Queue, i: nat, q': Queue) {
    && i < |q.script| && q.buffers != []
    && q'.buffers == q.buffers[1..] && q'.script == q.script[i + 1..]
    && SendCache(AsWritten, q) == SendCache(AsWritten, q')
  }

  // The queue after a partial write of its front record, seen from the offsets.
  lemma OffsetLater(len: nat, s: nat, script: seq<Outcome>, i: nat)
    requires AllAccept(script) && i + 1 < |script|
    ensures Reaches(len, Offset(s, script, 1), script[1..], i) <==> Reaches(len, s, script, i + 1)
  {
    assert i > 0 ==> script[1..][i - 1] == script[i];
    assert script[1..][i] == script[i + 1];
  }

  lemma AcceptStep(q: Queue)
    requires Valid(q) && q.buffers != [] && AllAccept(q.script) && q.script != []
    ensures var b := q.buffers[0];
            exists n :: 1 <= n <= |Remaining(b)| && Respond(q.script, |Remaining(b)|) == Sent(n) &&
              (n == |Remaining(b)| <==> Reaches(|b.data|, b.start, q.script, 0)) &&
              (n != |Remaining(b)| ==> n == Offset(b.start, q.script, 1))
  {
    var b := q.buffers[0];
    var n := Respond(q.script, |Remaining(b)|).n;
    assert 1 <= n <= |Remaining(b)|;
  }

  // A front record of which two consecutive numbers reach the length leaves the queue at the first such.
  lemma {:induction false} FrontLeaves(q: Queue, i: nat) returns (q': Queue)
    requires Valid(q) && q.buffers != [] && AllAccept(q.script) && i < |q.script|
    requires FirstReach(|q.buffers[0].data|, q.buffers[0].start, q.script, i)
    ensures Valid(q') && FrontGone(q, i, q')
    decreases i
  {
    var b := q.buffers[0];
    AcceptStep(q);
    var n :| 1 <= n <= |Remaining(b)| && Respond(q.script, |Remaining(b)|) == Sent(n) &&
             (n == |Remaining(b)| <==> Reaches(|b.data|, b.start, q.script, 0)) &&
             (n != |Remaining(b)| ==> n == Offset(b.start, q.script, 1));
    var next := Step(AsWritten, q, n);
    StepKeeps(AsWritten, q, n);
    StepGuard(q, n);
    hide Step, Valid, Reaches;
    if i == 0 {
      q' := next;
    } else {
      forall j | 0 <= j < i
        ensures Reaches(|b.data|, Offset(b.start, q.script, 1), q.script[1..], j) <==> Reaches(|b.data|, b.start, q.script, j + 1)
      {
        OffsetLater(|b.data|, b.start, q.script, j);
      }
      q' := FrontLeaves(next, i - 1);
      assert q.script[1..][i..] == q.script[i + 1..];
    }
  }

  // Without such a pair the socket is asked for as long as it answers, and the front record stays.
  lemma {:induction false} FrontStays(q: Queue)
    requires Valid(q) && q.buffers != [] && AllAccept(q.script)
    requires forall i :: 0 <= i < |q.script| ==> !Reaches(|q.buffers[0].data|, q.buffers[0].start, q.script, i)
    ensures var d := SendCache(AsWritten, q);
            && d.ok && d.q.script == [] && |d.q.buffers| == |q.buffers| && d.q.buffers[0].data == q.buffers[0].data
    decreases |q.script|
  {
    if q.script != [] {
      var b := q.buffers[0];
      AcceptStep(q);
      var n :| 1 <= n <= |Remaining(b)| && Respond(q.script, |Remaining(b)|) == Sent(n) &&
               (n == |Remaining(b)| <==> Reaches(|b.data|, b.start, q.script, 0)) &&
               (n != |Remaining(b)| ==> n == Offset(b.start, q.script, 1));
      var next := Step(AsWritten, q, n);
      StepKeeps(AsWritten, q, n);
      StepGuard(q, n);
      hide Step, Valid, Reaches;
      forall j | 0 <= j < |q.script| - 1
        ensures Reaches(|b.data|, Offset(b.start, q.script, 1), q.script[1..], j) <==> Reaches(|b.data|, b.start, q.script, j + 1)
      {
        OffsetLater(|b.data|, b.start, q.script, j);
      }
      FrontStays(next);
    }
  }

  // Each record in turn finds its pair among the answers left by the one before; all but the first
  // start from 0.
  predicate Finishes(buffers: seq<Rec>, script: seq<Outcome>)
    decreases |buffers|
  {
    buffers == [] ||
    exists i :: 0 <= i < |script| && FirstReach(|buffers[0].data|, buffers[0].start, script, i) &&
      Finishes(buffers[1..], script[i + 1..])
  }

  /** Over a socket that keeps taking bytes, whatever the numbers, a drain as written empties the cache
      exactly when for each record in turn two consecutive numbers of its offset and the answers that
      follow add up to at least its length. Otherwise it goes on for as long as the socket answers. */
  lemma {:induction false} AsWrittenDrainsIff(q: Queue)
    requires Valid(q) && AllAccept(q.script)
    ensures var d := SendCache(AsWritten, q);
            && (Finishes(q.buffers, q.script) <==> d.q.buffers == [])
            && (!Finishes(q.buffers, q.script) ==> d.ok && d.q.script == [])
    decreases |q.buffers|
  {
    if q.buffers != [] {
      var len, s := |q.buffers[0].data|, q.buffers[0].start;
      if i :| 0 <= i < |q.script| && Reaches(len, s, q.script, i) {
        var k := LeastReach(len, s, q.script, i);
        var q' := FrontLeaves(q, k);
        AsWrittenDrainsIff(q');
        hide SendCache, Valid, AllAccept, FirstReach;
        FinishesLater(q.buffers, q.script, k);
      } else {
        FrontStays(q);
        hide SendCache, Valid, Reaches, AllAccept;
      }
    }
  }

  lemma FinishesLater(buffers: seq<Rec>, script: seq<Outcome>, k: nat)
    requires buffers != [] && k < |script| && FirstReach(|buffers[0].data|, buffers[0].start, script, k)
    ensures Finishes(buffers, script) <==> Finishes(buffers[1..], script[k + 1..])
  {
    OnlyFirst(|buffers[0].data|, buffers[0].start, script, k);
    hide FirstReach;
  }

  lemma {:induction false} LeastReach(len: nat, s: nat, script: seq<Outcome>, i: nat) returns (k: nat)
    requires i < |script| && Reaches(len, s, script, i)
    ensures k <= i && FirstReach(len, s, script, k)
  {
    if j :| 0 <= j < i && Reaches(len, s, script, j) {
      k := LeastReach(len, s, script, j);
    } else {
      k := i;
    }
  }

  lemma OnlyFirst(len: nat, s: nat, script: seq<Outcome>, k: nat)
    requires k < |script| && FirstReach(len, s, script, k)
    ensures forall i :: 0 <= i < |script| && FirstReach(len, s, script, i) ==> i == k
  {
    hide Reaches;
  }

  /** The case of a single cached record. */
  lemma OneRecordDrainsIff(q: Queue)
    requires Valid(q) && |q.buffers| == 1 && AllAccept(q.script)
    ensures var b := q.buffers[0];
            SendCache(AsWritten, q).q.buffers == [] <==>
            exists i :: 0 <= i < |q.script| && Reaches(|b.data|, b.start, q.script, i)
  {
    AsWrittenDrainsIff(q);
    var len, s := |q.buffers[0].data|, q.buffers[0].start;
    hide Reaches, SendCache, Valid;
    assert q.buffers[1..] == [];
    if i :| 0 <= i < |q.script| && Reaches(len, s, q.script, i) {
      var k := LeastReach(len, s, q.script, i);
      assert Finishes(q.buffers[1..], q.script[k + 1..]);
    }
  }

  /** In particular, a socket that takes one byte at a time makes the drain as written send the second
      byte of a front record for as long as the socket answers. */
  lemma {:induction false} AsWrittenNeverDrains(q: Queue, data: Bytes, n: nat)
    requires q.buffers == [Rec(data, 1)] && |data| >= 3
    requires |q.script| == n && forall i :: 0 <= i < n ==> q.script[i] == Accept(1)
    ensures SendCache(AsWritten, q) ==
            Drained(true, q.(script := [], wire := q.wire + seq(n, _ => data[1]), forgotten := q.forgotten + n))
    decreases n
  {
    if n == 0 {
      assert q.wire + [] == q.wire;
    } else {
      var rest := Remaining(q.buffers[0]);
      assert Respond(q.script, |rest|) == Sent(1);
      var q' := Step(AsWritten, q, 1);
      assert rest[..1] == [data[1]];
      assert q'.buffers == q.buffers;
      AsWrittenNeverDrains(q', data, n - 1);
      assert (q.wire + [data[1]]) + seq(n - 1, _ => data[1]) == q.wire + seq(n, _ => data[1]);
    }
  }

  // What a kept record adds to the stream.
  function Added(r: SendResult, data: Bytes): Bytes {
    if r.kept then data else []
  }

  lemma PushKeeps(q: Queue, data: Bytes, start: nat)
    requires start <= |data|
    ensures Stream(Push(q, data, start).q) == Stream(q) + data[start..]
  {
    var b := q.buffers + [Rec(data, start)];
    assert b[..|q.buffers|] == q.buffers;
    Assoc(q.wire, Unsent(q.buffers), data[start..]);
  }

  lemma AddKeeps(q: Queue, data: Bytes, start: nat)
    requires Valid(q) && start < |data| && (q.buffers != [] ==> start == 0)
    ensures var r := AddToCache(q, data, start);
            && r.ok && Valid(r.q) && r.q.wire == q.wire && r.q.forgotten == q.forgotten && r.q.script == q.script
            && (q.buffers == [] ==> r.kept)
            && (!r.kept ==> r.q.throttle && |r.q.buffers| >= LOW_WATER_MARK && r.q.buffers == q.buffers)
            && (r.kept ==> Stream(r.q) == Stream(q) + data[start..])
  {
    PushKeeps(q, data, start);
    PushKeeps(q.(throttle := false), data, start);
    hide Unsent;
  }

  // Writing n bytes of a record past an empty cache.
  lemma WrittenPast(q: Queue, data: Bytes, n: nat)
    requires Valid(q) && q.buffers == [] && n <= |data|
    ensures var q' := Consumed(q, data[..n]); Valid(q') && Stream(q') == Stream(q) + data[..n]
  {
    assert q.wire + [] == q.wire;
    assert (q.wire + data[..n]) + [] == q.wire + data[..n];
  }

  lemma DirectGains(q: Queue, data: Bytes, n: nat, q': Queue)
    requires n <= |data| && q.wire <= q'.wire && q'.forgotten == q.forgotten
    requires Stream(q') == (Stream(q) + data[..n]) + data[n..]
    ensures Gains(q, q', data)
  {
    hide Stream;
    Assoc(Stream(q), data[..n], data[n..]);
    assert data[..n] + data[n..] == data;
  }

  lemma DirectKeeps(q: Queue, data: Bytes)
    requires Valid(q) && q.buffers == [] && data != []
    ensures var r := SendDirect(q, data);
            && Valid(r.q) && r.q.forgotten == q.forgotten && Gains(q, r.q, Added(r, data))
            && (r.ok ==> r.kept)
            && (!r.ok ==> StoppedBy(q, r.q, false) && !r.kept)
  {
    match Respond(q.script, |data|)
    case Gone => ConsumedNothing(q);
    case Again =>
      hide Stream, Gains, Valid, AddToCache;
      assert data[..0] == [];
      WrittenPast(q, data, 0);
      AddKeeps(Consumed(q, []), data, 0);
      DirectGains(q, data, 0, SendDirect(q, data).q);
    case Sent(n) =>
      hide Stream, Gains, Valid, AddToCache;
      var q' := Consumed(q, data[..n]);
      WrittenPast(q, data, n);
      if n < |data| {
        AddKeeps(q', data, n);
      } else {
        assert Stream(q') + data[n..] == Stream(q');
      }
      DirectGains(q, data, n, SendDirect(q, data).q);
  }

  /** One send_buffer call. The stream gains the record exactly when it is kept, unless an offset was
      forgotten; a record is dropped only by throttling, and then none of its bytes was sent; and the
      only failures are those the socket reports. */
  lemma SendBufferKeeps(rule: OffsetRule, q: Queue, data: Bytes)
    requires Valid(q) && data != []
    ensures var r := SendBuffer(rule, q, data);
            && Valid(r.q) && Gains(q, r.q, Added(r, data))
            && (rule == Accumulating ==> r.q.forgotten == q.forgotten)
            && (r.ok && !r.kept ==> r.q.throttle && |r.q.buffers| >= LOW_WATER_MARK)
            && (!r.ok ==> !r.kept && StoppedBy(q, r.q, false))
  {
    if q.buffers == [] {
      DirectKeeps(q, data);
    } else {
      SendCacheKeeps(rule, q);
      ScriptSuffix(rule, q);
      CallDrains(rule, q, data);
      hide Valid, Gains, StoppedBy, SendCache, SendBuffer, AfterDrain;
      var d := SendCache(rule, q);
      if d.ok {
        CachedKeeps(q, d.q, SendBuffer(rule, q, data), data);
      }
    }
  }

  // What follows a drain that did not fail.
  function AfterDrain(q: Queue, data: Bytes): SendResult {
    if q.buffers == [] then SendDirect(q, data) else AddToCache(q, data, 0)
  }

  lemma AfterDrainKeeps(q: Queue, data: Bytes)
    requires Valid(q) && data != []
    ensures var r := AfterDrain(q, data);
            && Valid(r.q) && Gains(q, r.q, Added(r, data)) && r.q.forgotten == q.forgotten
            && (r.ok && !r.kept ==> r.q.throttle && |r.q.buffers| >= LOW_WATER_MARK)
            && (!r.ok ==> !r.kept && StoppedBy(q, r.q, false))
  {
    if q.buffers == [] {
      DirectKeeps(q, data);
    } else {
      AddKeeps(q, data, 0);
      assert data[0..] == data;
      AddGains(q, AfterDrain(q, data), data);
      hide Valid, Gains, StoppedBy, AddToCache;
    }
  }

  lemma CachedKeeps(q: Queue, d: Queue, r: SendResult, data: Bytes)
    requires Valid(d) && data != [] && r == AfterDrain(d, data)
    requires Gains(q, d, []) && |d.script| <= |q.script| && d.script == q.script[|q.script| - |d.script|..]
    ensures Valid(r.q) && Gains(q, r.q, Added(r, data)) && r.q.forgotten == d.forgotten
    ensures r.ok && !r.kept ==> r.q.throttle && |r.q.buffers| >= LOW_WATER_MARK
    ensures !r.ok ==> !r.kept && StoppedBy(q, r.q, false)
  {
    AfterDrainKeeps(d, data);
    hide Valid, Gains, StoppedBy, AfterDrain;
    if !r.ok { StoppedLater(q, d, r.q, false); }
    GainsTransitive(q, d, r.q, [], Added(r, data));
    assert [] + Added(r, data) == Added(r, data);
  }

  lemma AddGains(q: Queue, r: SendResult, data: Bytes)
    requires r.q.wire == q.wire && r.q.forgotten == q.forgotten
    requires if r.kept then Stream(r.q) == Stream(q) + data else r.q.buffers == q.buffers
    ensures Gains(q, r.q, Added(r, data))
  {
    if !r.kept { GainsNothing(q, r.q); }
  }

  lemma {:induction false} DrainThrottle(rule: OffsetRule, q: Queue)
    requires Valid(q)
    ensures var q' := SendCache(rule, q).q;
            && |q'.buffers| <= |q.buffers| && (q'.throttle ==> q.throttle)
            && (q.throttle && !q'.throttle ==> |q'.buffers| < LOW_WATER_MARK)
    decreases |q.script|
  {
    if q.buffers != [] {
      match Respond(q.script, |Remaining(q.buffers[0])|)
      case Gone =>
      case Again =>
      case Sent(n) =>
        StepKeeps(rule, q, n);
        DrainThrottle(rule, Step(rule, q, n));
    }
  }

  /** A successful call drops its record exactly when it leaves throttling on. Throttling starts only
      just above 70% of the size of the queue, and after it has started ends only at or below 1%. */
  lemma ThrottleHysteresis(rule: OffsetRule, q: Queue, data: Bytes)
    requires Valid(q) && data != []
    ensures var r := SendBuffer(rule, q, data);
            && (r.ok ==> (r.kept <==> !r.q.throttle))
            && (!q.throttle && r.q.throttle ==> |r.q.buffers| == SOCKET_OUT_Q_MAX_SIZE * 7 / 10 + 1)
            && (q.throttle && !r.q.throttle ==> |r.q.buffers| <= SOCKET_OUT_Q_MAX_SIZE / 100)
  {
    if q.buffers == [] {
      AfterDrainThrottle(q, data);
      hide SendDirect;
    } else {
      DrainThrottle(rule, q);
      DrainKeeps(rule, q);
      AfterDrainThrottle(SendCache(rule, q).q, data);
      hide SendCache, Gains, AddToCache, SendDirect;
    }
  }

  lemma AfterDrainThrottle(q: Queue, data: Bytes)
    requires Valid(q)
    ensures var r := AfterDrain(q, data);
            && (r.ok ==> (r.kept <==> !r.q.throttle))
            && (!q.throttle && r.q.throttle ==> |r.q.buffers| == SOCKET_OUT_Q_MAX_SIZE * 7 / 10 + 1)
            && (q.throttle && !r.q.throttle ==> |r.q.buffers| <= SOCKET_OUT_Q_MAX_SIZE / 100)
            && (q.buffers == [] ==> !r.q.throttle)
  {
  }

  // ---------- the answers that a call uses up ----------

  // From q to q' the first k answers have been used up, and all but the last took bytes.
  predicate Asked(q: Queue, q': Queue, k: nat) {
    && k <= |q.script| && q'.script == q.script[k..]
    && forall i :: 0 <= i < k - 1 ==> q.script[i].Accept?
  }

  predicate Breaks(o: Outcome) {
    o.PeerClosed? || o.Broken?
  }

  // Whether the last answer used up, if any, took bytes.
  predicate LastAccepts(q: Queue, k: nat)
    requires k <= |q.script|
  {
    k > 0 && q.script[k - 1].Accept?
  }

  // What a drain that used up k answers says about them.
  predicate DrainAsked(q: Queue, d: DrainResult, k: nat) {
    && Asked(q, d.q, k)
    && (d.ok <==> k == 0 || !Breaks(q.script[k - 1]))
    && (k == 0 <==> q.buffers == [] || q.script == [])
    && (d.q.buffers == [] ==> k == 0 || LastAccepts(q, k))
    && (LastAccepts(q, k) && d.q.buffers != [] ==> k == |q.script|)
  }

  lemma DrainAsksMore(q: Queue, next: Queue, d: DrainResult, k: nat)
    requires q.buffers != [] && q.script != [] && q.script[0].Accept? && next.script == q.script[1..]
    requires DrainAsked(next, d, k) && (next.buffers == [] ==> d == Drained(true, next))
    ensures DrainAsked(q, d, k + 1)
  {
    assert q.script[1..][k..] == q.script[k + 1..];
    assert forall i :: 0 <= i < k ==> q.script[1..][i] == q.script[i + 1];
  }

  // Nothing to send, or no answer.
  lemma DrainAsksNone(rule: OffsetRule, q: Queue)
    requires q.buffers == [] || q.script == []
    ensures DrainAsked(q, SendCache(rule, q), 0)
  {
  }

  // A drain whose first answer takes nothing ends with it.
  lemma DrainAsksOnce(rule: OffsetRule, q: Queue)
    requires q.buffers != [] && q.script != [] && !q.script[0].Accept?
    ensures DrainAsked(q, SendCache(rule, q), 1)
  {
    assert SendCache(rule, q) == Drained(!Breaks(q.script[0]), Consumed(q, []));
    hide SendCache;
  }

  // A first answer that takes bytes is that of one step.
  lemma DrainSteps(rule: OffsetRule, q: Queue) returns (next: Queue)
    requires Valid(q) && q.buffers != [] && q.script != [] && q.script[0].Accept?
    ensures Valid(next) && next.script == q.script[1..] && SendCache(rule, q) == SendCache(rule, next)
    ensures next.buffers == [] ==> SendCache(rule, next) == Drained(true, next)
  {
    var n := Respond(q.script, |Remaining(q.buffers[0])|).n;
    StepKeeps(rule, q, n);
    next := Step(rule, q, n);
    assert next.script == q.script[1..];
    hide Step, Valid;
  }

  lemma {:induction false} DrainAsks(rule: OffsetRule, q: Queue) returns (k: nat)
    requires Valid(q)
    ensures DrainAsked(q, SendCache(rule, q), k)
    decreases |q.script|
  {
    hide Valid, SendCache, DrainAsked;
    if q.buffers == [] || q.script == [] {
      DrainAsksNone(rule, q);
      k := 0;
    } else if !q.script[0].Accept? {
      DrainAsksOnce(rule, q);
      k := 1;
    } else {
      var next := DrainSteps(rule, q);
      k := DrainAsks(rule, next);
      DrainAsksMore(q, next, SendCache(rule, next), k);
      k := k + 1;
    }
  }

  // What a call that used up k answers says about them.
  predicate CallAsked(q: Queue, r: SendResult, k: nat) {
    && Asked(q, r.q, k) && (k == 0 <==> q.script == [])
    && (r.ok <==> k == 0 || !Breaks(q.script[k - 1]))
    && (LastAccepts(q, k) && k < |q.script| ==> |r.q.buffers| <= 1)
  }

  lemma DirectAsks(q: Queue, data: Bytes) returns (k: nat)
    requires Valid(q) && q.buffers == [] && data != []
    ensures k <= 1 && CallAsked(q, SendDirect(q, data), k)
  {
    k := if q.script == [] then 0 else 1;
  }

  lemma DrainThenDirect(q: Queue, d: Queue, r: SendResult, k: nat, k': nat)
    requires q.buffers != [] && DrainAsked(q, Drained(true, d), k) && d.buffers == []
    requires k' <= 1 && CallAsked(d, r, k')
    ensures CallAsked(q, r, k + k')
  {
    if k == 0 || LastAccepts(q, k) { AskedMore(q, d, r.q, k, k'); }
  }

  lemma DrainThenAdd(q: Queue, d: Queue, r: SendResult, k: nat)
    requires q.buffers != [] && DrainAsked(q, Drained(true, d), k) && d.buffers != []
    requires r.ok && r.q.script == d.script
    ensures CallAsked(q, r, k)
  {
  }

  lemma AfterDrainAsks(q: Queue, d: Queue, data: Bytes, k: nat) returns (k': nat)
    requires Valid(d) && data != [] && q.buffers != [] && DrainAsked(q, Drained(true, d), k)
    ensures CallAsked(q, AfterDrain(d, data), k')
  {
    hide DrainAsked, CallAsked, SendDirect, AddToCache;
    var r := AfterDrain(d, data);
    if d.buffers == [] {
      var more := DirectAsks(d, data);
      hide Valid;
      DrainThenDirect(q, d, r, k, more);
      k' := k + more;
    } else {
      AddKeeps(d, data, 0);
      hide Valid;
      DrainThenAdd(q, d, r, k);
      k' := k;
    }
  }

  lemma FailedDrainAsks(q: Queue, d: Queue, k: nat)
    requires q.buffers != [] && DrainAsked(q, Drained(false, d), k)
    ensures CallAsked(q, SendResult(false, false, d), k)
  {
  }

  // A call on a cache that is not empty drains it first.
  lemma CallDrains(rule: OffsetRule, q: Queue, data: Bytes)
    requires q.buffers != []
    ensures var d := SendCache(rule, q);
            SendBuffer(rule, q, data) == if d.ok then AfterDrain(d.q, data) else SendResult(false, false, d.q)
  {
    hide SendCache, SendDirect, AddToCache;
  }

  lemma CallAsksCached(rule: OffsetRule, q: Queue, data: Bytes) returns (k: nat)
    requires Valid(q) && q.buffers != [] && data != []
    ensures CallAsked(q, SendBuffer(rule, q, data), k)
  {
    DrainKeeps(rule, q);
    CallDrains(rule, q, data);
    hide SendCache, Valid, Gains, SendBuffer, AfterDrain, DrainAsked, CallAsked;
    k := DrainAsks(rule, q);
    var d := SendCache(rule, q);
    if d.ok {
      k := AfterDrainAsks(q, d.q, data, k);
    } else {
      FailedDrainAsks(q, d.q, k);
    }
  }

  /** A call asks the socket until it has sent all it can: it fails exactly if the last answer was that
      the connection is gone, it asks at least once if there is an answer, never again once the socket
      blocks, and if it ends on an answer that took bytes, no more is cached than the rest of its own
      record, unless there are no more answers. */
  lemma CallAsks(rule: OffsetRule, q: Queue, data: Bytes) returns (k: nat)
    requires Valid(q) && data != []
    ensures var r := SendBuffer(rule, q, data);
            && Asked(q, r.q, k) && (k == 0 <==> q.script == [])
            && (r.ok <==> k == 0 || !Breaks(q.script[k - 1]))
            && (LastAccepts(q, k) && k < |q.script| ==> |r.q.buffers| <= 1)
  {
    if q.buffers == [] {
      assert SendBuffer(rule, q, data) == SendDirect(q, data);
      k := DirectAsks(q, data);
    } else {
      k := CallAsksCached(rule, q, data);
    }
    assert CallAsked(q, SendBuffer(rule, q, data), k);
    hide *;
    CallAskedMeans(q, SendBuffer(rule, q, data), k);
  }

  lemma CallAskedMeans(q: Queue, r: SendResult, k: nat)
    requires CallAsked(q, r, k)
    ensures Asked(q, r.q, k) && (k == 0 <==> q.script == [])
    ensures r.ok <==> k == 0 || !Breaks(q.script[k - 1])
    ensures LastAccepts(q, k) && k < |q.script| ==> |r.q.buffers| <= 1
  {
  }

  lemma AskedMore(q0: Queue, q1: Queue, q2: Queue, k: nat, k': nat)
    requires Asked(q0, q1, k) && Asked(q1, q2, k') && (k == 0 || LastAccepts(q0, k))
    ensures Asked(q0, q2, k + k') && forall i :: 0 <= i < k' ==> q0.script[k + i] == q1.script[i]
  {
    assert q0.script[k..][k'..] == q0.script[k + k'..];
    forall i | 0 <= i < k + k' - 1 ensures q0.script[i].Accept? {
      if i >= k { assert q0.script[i] == q1.script[i - k]; }
    }
  }

  // ---------- whole runs ----------

  // The calls made so far with the fate of each, up to and not including the first failure.
  datatype Run = Run(ok: bool, kept: seq<bool>, q: Queue)

  function Fresh(script: seq<Outcome>): Queue {
    Queue([], false, script, [], 0)
  }

  function RunSends(rule: OffsetRule, script: seq<Outcome>, records: seq<Bytes>): (r: Run)
    ensures |r.kept| <= |records| && (r.ok ==> |r.kept| == |records|)
  {
    if records == [] then Run(true, [], Fresh(script)) else
    var n := |records| - 1;
    var before := RunSends(rule, script, records[..n]);
    if !before.ok then before else
    var s := SendBuffer(rule, before.q, records[n]);
    if s.ok then Run(true, before.kept + [s.kept], s.q) else Run(false, before.kept, s.q)
  }

  // The records whose fate is to be kept, joined in order.
  function KeptBytes(records: seq<Bytes>, kept: seq<bool>): Bytes
    requires |kept| <= |records|
  {
    if kept == [] then [] else
    var n := |kept| - 1;
    KeptBytes(records, kept[..n]) + if kept[n] then records[n] else []
  }

  lemma {:induction false} KeptBytesPrefix(records: seq<Bytes>, more: seq<Bytes>, kept: seq<bool>)
    requires |kept| <= |records| <= |more| && more[..|records|] == records
    ensures KeptBytes(records, kept) == KeptBytes(more, kept)
  {
    if kept != [] {
      var n := |kept| - 1;
      KeptBytesPrefix(records, more, kept[..n]);
      assert records[n] == more[..|records|][n];
    }
  }

  // No call of the run resumes a record that has an offset only in part. The queue before each call
  // is that of the run with the right offsets.
  predicate RunResumesWhole(script: seq<Outcome>, records: seq<Bytes>) {
    if records == [] then true else
    var n := |records| - 1;
    var before := RunSends(Accumulating, script, records[..n]);
    RunResumesWhole(script, records[..n]) && (before.ok ==> ResumedWhole(before.q.buffers, before.q.script))
  }

  // In any run the stream is as much longer than the kept records as offsets were forgotten.
  lemma {:induction false} StreamLedger(rule: OffsetRule, script: seq<Outcome>, records: seq<Bytes>)
    requires forall r :: r in records ==> r != []
    ensures var r := RunSends(rule, script, records);
            && Valid(r.q)
            && (r.q.forgotten == 0 ==> Stream(r.q) == KeptBytes(records, r.kept))
            && |Stream(r.q)| == |KeptBytes(records, r.kept)| + r.q.forgotten
            && (rule == Accumulating ==> r.q.forgotten == 0)
  {
    if records != [] {
      var n := |records| - 1;
      assert forall r :: r in records[..n] ==> r in records;
      StreamLedger(rule, script, records[..n]);
      var before := RunSends(rule, script, records[..n]);
      assert |before.kept| <= n;
      KeptBytesPrefix(records[..n], records, before.kept);
      if before.ok {
        assert records[n] in records;
        var s := SendBuffer(rule, before.q, records[n]);
        SendBufferKeeps(rule, before.q, records[n]);
        hide Valid, Stream, KeptBytes, SendBuffer;
        if s.ok {
          KeptBytesStep(records, before.kept, s.kept);
        }
      }
    }
  }

  /** A run as written does what the right offsets do, and forgets none, exactly when no call of it
      resumes a record that has an offset only in part. */
  lemma {:induction false} RunsAgree(script: seq<Outcome>, records: seq<Bytes>)
    requires forall r :: r in records ==> r != []
    ensures RunResumesWhole(script, records) <==> RunSends(AsWritten, script, records).q.forgotten == 0
    ensures RunResumesWhole(script, records) <==>
            RunSends(AsWritten, script, records) == RunSends(Accumulating, script, records)
  {
    StreamLedger(Accumulating, script, records);
    if records != [] {
      var n := |records| - 1;
      assert forall r :: r in records[..n] ==> r in records;
      assert records[n] in records;
      RunsAgree(script, records[..n]);
      StreamLedger(AsWritten, script, records[..n]);
      var before := RunSends(AsWritten, script, records[..n]);
      hide Valid, Stream, KeptBytes, SendBuffer, ResumedWhole, Gains;
      if before.ok {
        CallsAgree(before.q, records[n]);
        SendBufferKeeps(AsWritten, before.q, records[n]);
        ForgottenGrows(before.q, SendBuffer(AsWritten, before.q, records[n]));
      }
    }
  }

  lemma ForgottenGrows(q: Queue, r: SendResult)
    requires Gains(q, r.q, []) || exists data :: Gains(q, r.q, data)
    ensures q.forgotten <= r.q.forgotten
  {
  }

  /** Over every run and every socket: what has been sent followed by what is queued is exactly the
      records that were kept, in order, if and only if offsets are counted up or no call of the run
      resumes a record that has an offset only in part. */
  lemma StreamIntegrity(rule: OffsetRule, script: seq<Outcome>, records: seq<Bytes>)
    requires forall r :: r in records ==> r != []
    ensures var r := RunSends(rule, script, records);
            && Valid(r.q)
            && (Stream(r.q) == KeptBytes(records, r.kept) <==> rule == Accumulating || RunResumesWhole(script, records))
            && |Stream(r.q)| == |KeptBytes(records, r.kept)| + r.q.forgotten
            && (rule == Accumulating ==> r.q.forgotten == 0)
  {
    StreamLedger(rule, script, records);
    RunsAgree(script, records);
    hide Stream, KeptBytes, RunSends, RunResumesWhole, Valid;
  }

  lemma KeptBytesStep(records: seq<Bytes>, kept: seq<bool>, last: bool)
    requires |kept| < |records|
    ensures KeptBytes(records, kept + [last]) == KeptBytes(records, kept) + if last then records[|kept|] else []
  {
    assert (kept + [last])[..|kept|] == kept;
  }

  // Every answer takes the whole of its record.
  predicate TakesAll(script: seq<Outcome>, records: seq<Bytes>) {
    && |records| <= |script|
    && forall i :: 0 <= i < |records| ==> script[i].Accept? && script[i].n >= |records[i]| > 0
  }

  /** A socket that takes every record whole is sent every record at once: nothing is cached or dropped. */
  lemma {:induction false} WillingSocket(rule: OffsetRule, script: seq<Outcome>, records: seq<Bytes>)
    requires TakesAll(script, records)
    ensures var r := RunSends(rule, script, records);
            && r.ok && (forall i :: 0 <= i < |r.kept| ==> r.kept[i])
            && r.q.buffers == [] && !r.q.throttle && r.q.forgotten == 0 && r.q.script == script[|records|..]
  {
    if records != [] {
      var n := |records| - 1;
      WillingSocket(rule, script, records[..n]);
      assert script[n..][1..] == script[n + 1..];
      var q := RunSends(rule, script, records[..n]).q;
      assert Respond(q.script, |records[n]|) == Sent(|records[n]|);
    }
  }

  /** The offset as written sends a byte twice although every call succeeds: of the first record one
      byte goes out directly, one more from the cache, and then all but the first again. */
  lemma ByteSentTwice(a: Bytes, b: Bytes)
    requires |a| >= 3 && b != []
    ensures RunSends(AsWritten, [Accept(1), Accept(1), Accept(|a|), Accept(|b|)], [a, b]) ==
            Run(true, [true, true], Queue([], false, [], a[..1] + a[1..2] + a[1..] + b, 1))
    ensures RunSends(Accumulating, [Accept(1), Accept(1), Accept(|a|), Accept(|b|)], [a, b]) ==
            Run(true, [true, true], Queue([], false, [], a + b, 0))
  {
    TwoSends(AsWritten, a, b);
    TwoSends(Accumulating, a, b);
    hide RunSends;
    assert a[..1] + a[1..2] + a[2..] == a;
  }

  lemma TwoSends(rule: OffsetRule, a: Bytes, b: Bytes)
    requires |a| >= 3 && b != []
    ensures RunSends(rule, [Accept(1), Accept(1), Accept(|a|), Accept(|b|)], [a, b]) ==
            Run(true, [true, true], if rule == AsWritten then Queue([], false, [], a[..1] + a[1..2] + a[1..] + b, 1)
                                    else Queue([], false, [], a[..1] + a[1..2] + a[2..] + b, 0))
  {
    var script := [Accept(1), Accept(1), Accept(|a|), Accept(|b|)];
    var q := Queue([Rec(a, 1)], false, script[1..], a[..1], 0);
    FirstByte(rule, a, script);
    SecondByte(rule, a, q);
    hide RunSends, SendCache, SendBuffer;
    LastRecord(rule, q, SendCache(rule, q).q, b);
    SecondCall(rule, script, a, b);
  }

  lemma SecondCall(rule: OffsetRule, script: seq<Outcome>, a: Bytes, b: Bytes)
    requires RunSends(rule, script, [a]).ok
    ensures var first := RunSends(rule, script, [a]);
            var s := SendBuffer(rule, first.q, b);
            s.ok ==> RunSends(rule, script, [a, b]) == Run(true, first.kept + [s.kept], s.q)
  {
    hide SendBuffer;
    assert [a, b][..1] == [a];
  }

  // One byte is sent directly, and the record is cached behind it.
  lemma FirstByte(rule: OffsetRule, a: Bytes, script: seq<Outcome>)
    requires |a| >= 3 && script != [] && script[0] == Accept(1)
    ensures RunSends(rule, script, [a]) == Run(true, [true], Queue([Rec(a, 1)], false, script[1..], a[..1], 0))
  {
    assert [a][..0] == [];
    assert RunSends(rule, script, [a][..0]) == Run(true, [], Fresh(script));
    assert Respond(script, |a|) == Sent(1);
    assert [] + a[..1] == a[..1];
  }

  // One byte of the cached record is sent, and then what the offset leaves of it.
  lemma SecondByte(rule: OffsetRule, a: Bytes, q: Queue)
    requires |a| >= 3 && q.buffers == [Rec(a, 1)] && !q.throttle
    requires |q.script| >= 2 && q.script[0] == Accept(1) && q.script[1] == Accept(|a|)
    ensures SendCache(rule, q) == Drained(true,
              if rule == AsWritten then Queue([], false, q.script[2..], q.wire + a[1..2] + a[1..], q.forgotten + 1)
              else Queue([], false, q.script[2..], q.wire + a[1..2] + a[2..], q.forgotten))
  {
    var q1 := Step(rule, q, 1);
    assert a[1..][..1] == a[1..2];
    assert Respond(q.script, |Remaining(q.buffers[0])|) == Sent(1);
    var rest := Remaining(q1.buffers[0]);
    assert rest == if rule == AsWritten then a[1..] else a[2..];
    assert Respond(q1.script, |rest|) == Sent(|rest|);
    var q2 := Step(rule, q1, |rest|);
    assert rest[..|rest|] == rest;
    assert q2.buffers == [];
    assert SendCache(rule, q2) == Drained(true, q2);
    assert SendCache(rule, q1) == SendCache(rule, q2);
  }

  // A record that goes out whole once the cache has drained.
  lemma LastRecord(rule: OffsetRule, q: Queue, d: Queue, b: Bytes)
    requires q.buffers != [] && b != [] && SendCache(rule, q) == Drained(true, d)
    requires d.buffers == [] && d.script == [Accept(|b|)]
    ensures SendBuffer(rule, q, b) == SendResult(true, true, d.(script := [], wire := d.wire + b))
  {
    assert Respond(d.script, |b|) == Sent(|b|);
    assert b[..|b|] == b;
  }

  // ---------- the queue as the connection holds it ----------

  // The socket: what it will answer and what it has taken.
  class Socket {
    var script: seq<Outcome>
    var wire: Bytes

    constructor (script: seq<Outcome>)
      ensures this.script == script && wire == []
    {
      this.script := script;
      wire := [];
    }

    // send(): the number of bytes taken, 0, or -1 with the cause in errno.
    method Send(data: Bytes) returns (res: int, wouldBlock: bool)
      modifies this
      ensures script == if old(script) == [] then [] else old(script)[1..]
      ensures match Respond(old(script), |data|) {
          case Gone => (res == 0 || (res == -1 && !wouldBlock)) && wire == old(wire)
          case Again => res == -1 && wouldBlock && wire == old(wire)
          case Sent(n) => res == n && wire == old(wire) + data[..n]
        }
    {
      wouldBlock := false;
      if script == [] {
        res, wouldBlock := -1, true;
        return;
      }
      match script[0] {
        case PeerClosed => res := 0;
        case Broken => res := -1;
        case WouldBlock => res, wouldBlock := -1, true;
        case Accept(n) =>
          res := if n < 1 then 1 else n;
          if |data| < res { res := |data|; }
          wire := wire + data[..res];
      }
      script := script[1..];
    }
  }

  class TcpSocketQueue {
    const rule: OffsetRule
    const socket: Socket
    var buffers: seq<Rec>
    var throttleOn: bool
    var sessionIndex: U32
    ghost var forgotten: nat

    ghost function View(): Queue
      reads this, socket
    {
      Queue(buffers, throttleOn, socket.script, socket.wire, forgotten)
    }

    constructor (rule: OffsetRule, socket: Socket)
      ensures this.rule == rule && this.socket == socket && sessionIndex == 0
      ensures buffers == [] && !throttleOn && forgotten == 0
    {
      this.rule := rule;
      this.socket := socket;
      buffers := [];
      throttleOn := false;
      sessionIndex := 0;
      forgotten := 0;
    }

    // ++session_index_ on a uint32_t
    method NextSessionIndex() returns (i: U32)
      modifies this`sessionIndex
      ensures i == sessionIndex == (old(sessionIndex) + 1) % 0x1_0000_0000
    {
      sessionIndex := (sessionIndex + 1) % 0x1_0000_0000;
      i := sessionIndex;
    }

    method Add(data: Bytes, start: nat) returns (ok: bool, ghost kept: bool)
      modifies this`buffers, this`throttleOn
      ensures SendResult(ok, kept, View()) == AddToCache(old(View()), data, start)
    {
      var size := |buffers|;
      kept := false;
      if throttleOn {
        if size < LOW_WATER_MARK {
          throttleOn := false;
        } else {
          return true, false;
        }
      } else {
        if size > HIGH_WATER_MARK {
          throttleOn := true;
          return true, false;
        }
      }
      buffers := buffers + [Rec(data, start)];
      kept := true;
      if size >= SOCKET_OUT_Q_MAX_SIZE {
        return false, true;
      }
      ok := true;
    }

    // What follows a write of n bytes from the front record, the rest of which was offered.
    method Advance(n: nat)
      requires buffers != [] && buffers[0].start + n <= |buffers[0].data|
      modifies this`buffers, this`throttleOn, this`forgotten
      ensures View() == if n == |Remaining(old(buffers)[0])| then PopFront(old(View())) else Resume(rule, old(View()), n)
    {
      var b := buffers[0];
      if n == |b.data| - b.start {
        buffers := buffers[1..];
        if throttleOn {
          var size := |buffers|;
          if size < LOW_WATER_MARK {
            throttleOn := false;
          }
        }
      } else {
        buffers := buffers[0 := b.(start := if rule == AsWritten then n else b.start + n)];
        forgotten := if rule == AsWritten then forgotten + b.start else forgotten;
      }
    }

    method Drain() returns (ok: bool)
      requires Valid(View())
      modifies this`buffers, this`throttleOn, this`forgotten, socket
      ensures Drained(ok, View()) == SendCache(rule, old(View()))
    {
      ghost var start := View();
      while buffers != []
        invariant Valid(View()) && SendCache(rule, View()) == SendCache(rule, start)
        decreases |socket.script|, |buffers|
      {
        ghost var q := View();
        var rest := buffers[0].data[buffers[0].start..];
        assert rest == Remaining(q.buffers[0]);
        var res, wouldBlock := socket.Send(rest);
        if res == 0 {
          assert View() == Consumed(q, []);
          return false;
        } else if res == -1 {
          assert View() == Consumed(q, []);
          return wouldBlock;
        }
        assert View() == Consumed(q, rest[..res]);
        hide PopFront, Resume, Valid;
        Advance(res);
        StepKeeps(rule, q, res);
        assert View() == Step(rule, q, res);
      }
      ok := true;
    }

    // The write past an empty cache.
    method SendNow(data: Bytes) returns (ok: bool, ghost kept: bool)
      requires data != []
      modifies this`buffers, this`throttleOn, socket
      ensures SendResult(ok, kept, View()) == SendDirect(old(View()), data)
    {
      ghost var q := View();
      var res, wouldBlock := socket.Send(data);
      assert View() == Consumed(q, if res > 0 then data[..res] else []);
      hide AddToCache;
      if res == 0 {
        return false, false;
      } else if res == -1 {
        if wouldBlock {
          ok, kept := Add(data, 0);
          return;
        }
        return false, false;
      } else if res < |data| {
        ok, kept := Add(data, res);
        return;
      }
      return true, true;
    }

    method Send(data: Bytes) returns (ok: bool, ghost kept: bool)
      requires Valid(View()) && data != []
      modifies this`buffers, this`throttleOn, this`forgotten, socket
      ensures SendResult(ok, kept, View()) == SendBuffer(rule, old(View()), data)
      ensures Valid(View())
    {
      SendBufferKeeps(rule, View(), data);
      hide AddToCache, SendDirect, SendCache, Valid;
      if buffers != [] {
        ok := Drain();
        if !ok {
          return false, false;
        }
        if buffers != [] {
          ok, kept := Add(data, 0);
          return;
        }
      }
      ok, kept := SendNow(data);
    }
  }
}
