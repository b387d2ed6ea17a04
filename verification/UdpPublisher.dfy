/**
 The UDP publisher's registry of subscribers: registration, heartbeats, publishing to everybody and
 the eviction of those that have fallen silent. Every guarded operation is one step.
 */
module UdpPublishers {
  import opened Words
  import opened Heartbeats
  import opened Registries

  type Addr = nat

  // lastHb is when the subscriber was last heard; ticks counts successful sends; session is the index
  // of the last send that was tried.
  datatype ConnInfo = ConnInfo(lastHb: Time, ticks: U64, session: U32)

  type Registry = Table<Addr, ConnInfo>
  type Turns = seq<Visit<Addr>>

  function NextSession(i: ConnInfo): ConnInfo {
    i.(session := Wrap32(i.session + 1))
  }

  function NextTick(i: ConnInfo): ConnInfo {
    i.(ticks := Wrap64(i.ticks + 1))
  }

  predicate TimedOut(c: Config, i: ConnInfo, now: Time) {
    Silent(c, i.ticks, i.lastHb, now)
  }

  function Bump(i: ConnInfo): ConnInfo {
    NextTick(NextSession(i))
  }

  // The index is used up before the send, the tick counted only after it.
  function Visited(i: ConnInfo, refused: bool): ConnInfo {
    if refused then NextSession(i) else Bump(i)
  }

  // ---------- one publish, subscriber by subscriber ----------

  datatype Walk = Walk(ok: bool, subs: map<Addr, ConnInfo>, expired: seq<Addr>)

  // The first refused send ends the walk.
  function WalkAll(c: Config, subs: map<Addr, ConnInfo>, visits: Turns): Walk {
    if visits == [] then Walk(true, subs, []) else
    var n := |visits| - 1;
    var w := WalkAll(c, subs, visits[..n]);
    var v := visits[n];
    if !w.ok || v.key !in w.subs then w else
    var i := Visited(w.subs[v.key], v.refused);
    Walk(!v.refused, w.subs[v.key := i], if !v.refused && TimedOut(c, i, v.now) then w.expired + [v.key] else w.expired)
  }

  function RemoveAll(r: Registry, list: seq<Addr>): Registry {
    if list == [] then r else
    var n := |list| - 1;
    Unregister(RemoveAll(r, list[..n]), list[n])
  }

  datatype Published = Published(ok: bool, r: Registry)

  function PublishWalk(c: Config, r: Registry, visits: Turns): Published {
    var w := WalkAll(c, r.entries, visits);
    var r' := r.(entries := w.subs);
    if w.ok then Published(true, RemoveAll(r', w.expired)) else Published(false, r')
  }

  // ---------- events ----------

  function Register(r: Registry, a: Addr, now: Time): Registry {
    if a in r.entries then r else Counted(r.entries[a := ConnInfo(now, 0, 0)])
  }

  function Unregister(r: Registry, a: Addr): Registry {
    if a in r.entries then Counted(r.entries - {a}) else r
  }

  function Beat(r: Registry, a: Addr, now: Time): Registry {
    if a in r.entries then r.(entries := r.entries[a := r.entries[a].(lastHb := now)]) else r
  }

  // ---------- what one publish does to each subscriber ----------

  lemma {:induction false} WalkOk(c: Config, subs: map<Addr, ConnInfo>, visits: Turns)
    ensures var w := WalkAll(c, subs, visits);
            w.subs.Keys == subs.Keys &&
            ((forall i :: 0 <= i < |visits| ==> visits[i].key in subs) ==> (w.ok <==> NoneRefused(visits, |visits|)))
  {
    hide Visited, TimedOut;
    if visits != [] {
      var n := |visits| - 1;
      WalkOk(c, subs, visits[..n]);
      RefusedPrefix(visits, n, n);
    }
  }

  lemma {:induction false} WalkOthers(c: Config, subs: map<Addr, ConnInfo>, visits: Turns, a: Addr)
    requires a in subs && !Visits(visits, a)
    ensures var w := WalkAll(c, subs, visits);
            w.subs.Keys == subs.Keys && w.subs[a] == subs[a] && a !in w.expired
  {
    hide Visited, TimedOut;
    WalkOk(c, subs, visits);
    if visits != [] {
      var n := |visits| - 1;
      assert visits[n].key != a;
      assert forall i :: 0 <= i < n ==> visits[..n][i] == visits[i];
      WalkOthers(c, subs, visits[..n], a);
    }
  }

  // What the walk leaves of the subscriber of the i-th turn.
  ghost predicate WalkedAt(c: Config, subs: map<Addr, ConnInfo>, visits: Turns, i: nat, w: Walk)
    requires i < |visits| && visits[i].key in subs
  {
    var a := visits[i].key;
    && a in w.subs
    && w.subs[a] == (if NoneRefused(visits, i) then Visited(subs[a], visits[i].refused) else subs[a])
    && (a in w.expired <==> NoneRefused(visits, i + 1) && TimedOut(c, Bump(subs[a]), visits[i].now))
  }

  lemma {:induction false} WalkAt(c: Config, subs: map<Addr, ConnInfo>, visits: Turns, i: nat)
    requires Distinct(visits) && (forall j :: 0 <= j < |visits| ==> visits[j].key in subs) && i < |visits|
    ensures WalkedAt(c, subs, visits, i, WalkAll(c, subs, visits))
  {
    var n := |visits| - 1;
    var front, a := visits[..n], visits[i].key;
    WalkOk(c, subs, front);
    RefusedPrefix(visits, n, n);
    if i == n {
      assert forall j :: 0 <= j < n ==> front[j] == visits[j];
      WalkOthers(c, subs, front, a);
      hide TimedOut, NextTick, NextSession;
    } else {
      WalkAt(c, subs, front, i);
      RefusedPrefix(visits, n, i);
      RefusedPrefix(visits, n, i + 1);
      assert visits[n].key != a;
      hide TimedOut, Visited, Bump, NoneRefused;
    }
  }

  lemma UnregisterOne(r: Registry, a: Addr)
    requires Accurate(r)
    ensures Unregister(r, a).entries == r.entries - {a} && Accurate(Unregister(r, a))
  {
    hide Count16;
    if a !in r.entries { assert r.entries - {a} == r.entries; }
  }

  function Elements(list: seq<Addr>): (s: set<Addr>)
    ensures forall a :: a in s <==> a in list
  {
    if list == [] then {} else
    var n := |list| - 1;
    assert list == list[..n] + [list[n]];
    Elements(list[..n]) + {list[n]}
  }

  lemma {:induction false} RemoveState(r: Registry, list: seq<Addr>)
    requires Accurate(r)
    ensures RemoveAll(r, list).entries == r.entries - Elements(list) && Accurate(RemoveAll(r, list))
  {
    hide Accurate, Unregister;
    if list == [] {
      assert r.entries - {} == r.entries;
    } else {
      var n := |list| - 1;
      RemoveState(r, list[..n]);
      UnregisterOne(RemoveAll(r, list[..n]), list[n]);
      assert r.entries - (Elements(list[..n]) + {list[n]}) == (r.entries - Elements(list[..n])) - {list[n]};
    }
  }

  // No publish loses the count or makes up a subscriber.
  lemma PublishCounts(c: Config, r: Registry, visits: Turns)
    requires Accurate(r)
    ensures var p := PublishWalk(c, r, visits); Accurate(p.r) && p.r.entries.Keys <= r.entries.Keys
  {
    var w := WalkAll(c, r.entries, visits);
    WalkOk(c, r.entries, visits);
    SameSize(w.subs, r.entries);
    RemoveState(r.(entries := w.subs), w.expired);
    hide WalkAll, RemoveAll, Count16;
  }

  // What a publish leaves of the subscriber of the i-th turn.
  ghost predicate PublishedAt(c: Config, r: Registry, visits: Turns, i: nat, p: Published)
    requires i < |visits| && visits[i].key in r.entries
  {
    var a := visits[i].key;
    && (a in p.r.entries <==> !(p.ok && TimedOut(c, Bump(r.entries[a]), visits[i].now)))
    && (a in p.r.entries ==>
          p.r.entries[a] == if NoneRefused(visits, i) then Visited(r.entries[a], visits[i].refused) else r.entries[a])
  }

  /** Every subscriber has its turn until a send is refused: those before it are sent the message and
      counted on, the refused one has used up an index, those after it get nothing. Only if no send is
      refused are subscribers removed: those due for a check and silent for too long at their turn. */
  lemma PublishEffect(c: Config, r: Registry, visits: Turns, i: nat)
    requires Accurate(r) && Walks(visits, r.entries) && i < |visits|
    ensures visits[i].key in r.entries
    ensures var p := PublishWalk(c, r, visits);
            && (p.ok <==> NoneRefused(visits, |visits|))
            && PublishedAt(c, r, visits, i, p)
  {
    forall j | 0 <= j < |visits| ensures visits[j].key in r.entries { WalkKey(visits, r.entries, j); }
    var w := WalkAll(c, r.entries, visits);
    WalkOk(c, r.entries, visits);
    WalkAt(c, r.entries, visits, i);
    SameSize(w.subs, r.entries);
    RemoveState(r.(entries := w.subs), w.expired);
    hide WalkAll, RemoveAll, Count16, Visited, TimedOut, Bump, Walks, Elements;
  }

  /** A refused send ends the publish: those walked before it have been sent the message, it has used
      up an index, the others have got nothing, and nobody is removed. */
  lemma FailedPublish(c: Config, r: Registry, visits: Turns, k: nat)
    requires Accurate(r) && Walks(visits, r.entries)
    requires k < |visits| && visits[k].refused && NoneRefused(visits, k)
    ensures forall i :: 0 <= i < |visits| ==> visits[i].key in r.entries
    ensures var p := PublishWalk(c, r, visits);
            && !p.ok && p.r.count == r.count && p.r.entries.Keys == r.entries.Keys
            && forall i :: 0 <= i < |visits| ==>
                 var info := r.entries[visits[i].key];
                 p.r.entries[visits[i].key] == if i < k then Bump(info) else if i == k then NextSession(info) else info
  {
    var p := PublishWalk(c, r, visits);
    PublishEffect(c, r, visits, k);
    WalkOk(c, r.entries, visits);
    hide WalkAll, RemoveAll, TimedOut, Bump, NextSession, Accurate;
    forall i | 0 <= i < |visits|
      ensures visits[i].key in r.entries && visits[i].key in p.r.entries
      ensures p.r.entries[visits[i].key] == var info := r.entries[visits[i].key];
                if i < k then Bump(info) else if i == k then NextSession(info) else info
    {
      PublishEffect(c, r, visits, i);
    }
  }

  // What the clock showed at each turn.
  function Clock(visits: Turns): map<Addr, Time> {
    if visits == [] then map[] else Clock(visits[..|visits| - 1])[visits[|visits| - 1].key := visits[|visits| - 1].now]
  }

  lemma {:induction false} ClockAt(visits: Turns, i: nat)
    requires Distinct(visits) && i < |visits|
    ensures visits[i].key in Clock(visits) && Clock(visits)[visits[i].key] == visits[i].now
  {
    if i < |visits| - 1 { ClockAt(visits[..|visits| - 1], i); }
  }

  // A publish in which every send succeeds; there is no order in it.
  function Publish(c: Config, r: Registry, clock: map<Addr, Time>): Registry
    requires forall a :: a in r.entries ==> a in clock
  {
    Counted(map a | a in r.entries && !TimedOut(c, Bump(r.entries[a]), clock[a]) :: Bump(r.entries[a]))
  }

  /** When every send succeeds the order of the walk does not matter: everyone is sent the message and
      counted on, and exactly those due for a check and silent for too long are gone. */
  lemma PublishRefines(c: Config, r: Registry, visits: Turns)
    requires Accurate(r) && Walks(visits, r.entries) && NoneRefused(visits, |visits|)
    ensures forall a :: a in r.entries ==> a in Clock(visits)
    ensures PublishWalk(c, r, visits) == Published(true, Publish(c, r, Clock(visits)))
  {
    PublishCounts(c, r, visits);
    if visits != [] { PublishEffect(c, r, visits, 0); }
    hide PublishWalk, TimedOut, Bump, Count16, Clock, NoneRefused;
    var p := PublishWalk(c, r, visits);
    forall a | a in r.entries
      ensures a in Clock(visits)
      ensures a in p.r.entries <==> !TimedOut(c, Bump(r.entries[a]), Clock(visits)[a])
      ensures a in p.r.entries ==> p.r.entries[a] == Bump(r.entries[a])
    {
      var i := WalkIndex(visits, r.entries, a);
      SucceedsAt(c, r, visits, i);
    }
    assert p.r.entries == Publish(c, r, Clock(visits)).entries;
  }

  lemma SucceedsAt(c: Config, r: Registry, visits: Turns, i: nat)
    requires Accurate(r) && Walks(visits, r.entries) && NoneRefused(visits, |visits|) && i < |visits|
    ensures visits[i].key in r.entries && visits[i].key in Clock(visits)
    ensures var a, p := visits[i].key, PublishWalk(c, r, visits);
            && (a in p.r.entries <==> !TimedOut(c, Bump(r.entries[a]), Clock(visits)[a]))
            && (a in p.r.entries ==> p.r.entries[a] == Bump(r.entries[a]))
  {
    ClockAt(visits, i);
    PublishEffect(c, r, visits, i);
    hide PublishWalk, TimedOut, Bump, Clock;
  }

  // ---------- runs ----------

  datatype Event =
    | Registering(a: Addr, now: Time)
    | Unregistering(a: Addr)
    | Beating(a: Addr, now: Time)
    | Publishing(visits: Turns)

  function Next(c: Config, r: Registry, e: Event): Registry {
    match e
    case Registering(a, now) => Register(r, a, now)
    case Unregistering(a) => Unregister(r, a)
    case Beating(a, now) => Beat(r, a, now)
    case Publishing(visits) => PublishWalk(c, r, visits).r
  }

  function Run(c: Config, r: Registry, es: seq<Event>): Registry {
    if es == [] then r else Next(c, Run(c, r, es[..|es| - 1]), es[|es| - 1])
  }

  ghost predicate GenuineEvent(r: Registry, e: Event) {
    e.Publishing? ==> Walks(e.visits, r.entries)
  }

  // Every publish walks the map as it is at the time, in some order.
  ghost predicate Genuine(c: Config, r: Registry, es: seq<Event>) {
    es != [] ==>
      var front := es[..|es| - 1];
      Genuine(c, r, front) && GenuineEvent(Run(c, r, front), es[|es| - 1])
  }

  const EMPTY: Registry := Table(map[], 0)

  lemma NextCounts(c: Config, r: Registry, e: Event)
    requires Accurate(r)
    ensures Accurate(Next(c, r, e))
  {
    if e.Publishing? { PublishCounts(c, r, e.visits); }
    if e.Beating? { SameSize(r.entries, Beat(r, e.a, e.now).entries); }
    hide Count16, PublishWalk;
  }

  lemma {:induction false} RunCounts(c: Config, r: Registry, es: seq<Event>)
    requires Accurate(r)
    ensures Accurate(Run(c, r, es))
  {
    if es != [] {
      RunCounts(c, r, es[..|es| - 1]);
      NextCounts(c, Run(c, r, es[..|es| - 1]), es[|es| - 1]);
    }
  }

  /** In every reachable state, refused sends included, the atomic count is the number of subscribers
      modulo 2^16. */
  lemma CountRun(c: Config, es: seq<Event>)
    ensures Run(c, EMPTY, es).count == |Run(c, EMPTY, es).entries| % 0x1_0000
  {
    assert |EMPTY.entries| == 0;
    RunCounts(c, EMPTY, es);
  }

  // A send to a was tried: no send before it was refused.
  predicate TriedIn(visits: Turns, a: Addr) {
    exists i :: 0 <= i < |visits| && visits[i].key == a && NoneRefused(visits, i)
  }

  // A send to a succeeded.
  predicate SentIn(visits: Turns, a: Addr) {
    exists i :: 0 <= i < |visits| && visits[i].key == a && NoneRefused(visits, i + 1)
  }

  lemma TurnOf(visits: Turns, i: nat)
    requires Distinct(visits) && i < |visits|
    ensures TriedIn(visits, visits[i].key) <==> NoneRefused(visits, i)
    ensures SentIn(visits, visits[i].key) <==> NoneRefused(visits, i + 1)
    ensures NoneRefused(visits, i + 1) <==> NoneRefused(visits, i) && !visits[i].refused
    ensures NoneRefused(visits, |visits|) ==> NoneRefused(visits, i + 1)
  {
    forall j | 0 <= j < |visits| && visits[j].key == visits[i].key ensures j == i {}
    assert NoneRefused(visits, i + 1) <==> NoneRefused(visits, i) && !visits[i].refused;
    assert NoneRefused(visits, |visits|) ==> NoneRefused(visits, i + 1);
    hide NoneRefused;
  }

  // ---------- one subscriber's life, from the events alone ----------

  // Since its registration: when it was last heard from, the sends to it that succeeded, and those
  // that were tried.
  datatype Life = Life(heard: Time, sent: nat, tried: nat)
  datatype Tracked = Absent | Present(l: Life)

  predicate EvictedBy(c: Config, l: Life, visits: Turns, a: Addr) {
    NoneRefused(visits, |visits|) && exists i :: 0 <= i < |visits| && visits[i].key == a && DueAndSilent(c, l.sent, l.heard, visits[i].now)
  }

  function TrackNext(c: Config, t: Tracked, e: Event, a: Addr): Tracked {
    match e
    case Registering(b, now) => if b == a && t.Absent? then Present(Life(now, 0, 0)) else t
    case Unregistering(b) => if b == a then Absent else t
    case Beating(b, now) => if b == a && t.Present? then Present(t.l.(heard := now)) else t
    case Publishing(visits) =>
      if t.Absent? || EvictedBy(c, t.l, visits, a) then Absent else
      Present(Life(t.l.heard, t.l.sent + (if SentIn(visits, a) then 1 else 0), t.l.tried + if TriedIn(visits, a) then 1 else 0))
  }

  function Track(c: Config, es: seq<Event>, a: Addr): Tracked {
    if es == [] then Absent else TrackNext(c, Track(c, es[..|es| - 1], a), es[|es| - 1], a)
  }

  // What the registry should hold of a.
  function Expected(l: Life): ConnInfo {
    ConnInfo(l.heard, Wrap64(l.sent), Wrap32(l.tried))
  }

  ghost predicate Agrees(r: Registry, a: Addr, t: Tracked) {
    (a in r.entries <==> t.Present?) && (a in r.entries ==> r.entries[a] == Expected(t.l))
  }

  lemma WrapZero()
    ensures Wrap32(0) == 0 && Wrap64(0) == 0
  {
  }

  lemma VisitedInfo(l: Life, refused: bool)
    ensures Visited(Expected(l), refused) == Expected(Life(l.heard, if refused then l.sent else l.sent + 1, l.tried + 1))
  {
    WrapNext64(l.sent);
    WrapNext32(l.tried);
    hide Wrap32, Wrap64;
  }

  lemma TimedOutIff(c: Config, l: Life, now: Time)
    ensures TimedOut(c, Bump(Expected(l)), now) <==> DueAndSilent(c, l.sent, l.heard, now)
  {
    SilentIff(c, l.sent, l.heard, now);
    hide Silent, DueAndSilent;
  }

  lemma PublishInfo(c: Config, r: Registry, visits: Turns, a: Addr, l: Life)
    requires Accurate(r) && Walks(visits, r.entries) && Agrees(r, a, Present(l))
    ensures Agrees(PublishWalk(c, r, visits).r, a, TrackNext(c, Present(l), Publishing(visits), a))
  {
    var i := WalkIndex(visits, r.entries, a);
    PublishEffect(c, r, visits, i);
    TurnOf(visits, i);
    VisitedInfo(l, visits[i].refused);
    TimedOutIff(c, l, visits[i].now);
    OneTurn(c, l, visits, i);
    hide PublishWalk, Expected, Visited, TimedOut, Bump, NoneRefused, SentIn, TriedIn, Accurate, Walks, EvictedBy, DueAndSilent;
  }

  lemma OneTurn(c: Config, l: Life, visits: Turns, i: nat)
    requires Distinct(visits) && i < |visits|
    ensures EvictedBy(c, l, visits, visits[i].key) <==> NoneRefused(visits, |visits|) && DueAndSilent(c, l.sent, l.heard, visits[i].now)
  {
    hide DueAndSilent;
    forall j | 0 <= j < |visits| && visits[j].key == visits[i].key ensures j == i {}
  }

  lemma TrackStep(c: Config, r: Registry, e: Event, a: Addr, t: Tracked)
    requires Accurate(r) && GenuineEvent(r, e) && Agrees(r, a, t)
    ensures Agrees(Next(c, r, e), a, TrackNext(c, t, e, a))
  {
    hide SentIn, TriedIn, Accurate, Walks, EvictedBy;
    if e.Publishing? {
      PublishCounts(c, r, e.visits);
      if t.Present? { PublishInfo(c, r, e.visits, a, t.l); }
      hide PublishWalk, Expected;
    } else {
      WrapZero();
      hide Count16, Wrap32, Wrap64;
    }
  }

  lemma {:induction false} TrackRun(c: Config, es: seq<Event>, a: Addr)
    requires Genuine(c, EMPTY, es)
    ensures Agrees(Run(c, EMPTY, es), a, Track(c, es, a))
  {
    if es != [] {
      var front, e := es[..|es| - 1], es[|es| - 1];
      assert |EMPTY.entries| == 0;
      RunCounts(c, EMPTY, front);
      TrackRun(c, front, a);
      hide Next, TrackNext, Accurate, GenuineEvent, Agrees;
      TrackStep(c, Run(c, EMPTY, front), e, a, Track(c, front, a));
    }
  }

  /** In every reachable state, refused sends included, the registry holds exactly those subscribers that
      are present by the events that concern them. The session index counts the sends to one that were
      tried since its registration, modulo 2^32, its ticks those that succeeded, modulo 2^64, and its
      last heartbeat is the last event that came from it. */
  lemma RegistryRun(c: Config, es: seq<Event>, a: Addr)
    requires Genuine(c, EMPTY, es)
    ensures var r, t := Run(c, EMPTY, es), Track(c, es, a);
            && (a in r.entries <==> t.Present?)
            && (t.Present? ==>
                  r.entries[a] == ConnInfo(t.l.heard, t.l.sent % 0x1_0000_0000_0000_0000, t.l.tried % 0x1_0000_0000))
  {
    TrackRun(c, es, a);
    hide Run, Track, Genuine;
  }

  // The n-th event is a publish that evicts a.
  predicate EvictsNow(c: Config, es: seq<Event>, a: Addr, n: nat)
    requires n < |es|
  {
    var t := Track(c, es[..n], a);
    es[n].Publishing? && t.Present? && EvictedBy(c, t.l, es[n].visits, a)
  }

  // The j-th event registers a, and nothing since has removed it.
  ghost predicate Enrolled(c: Config, es: seq<Event>, a: Addr, j: nat) {
    && j < |es| && es[j].Registering? && es[j].a == a
    && forall n :: j < n < |es| ==> es[n] != Unregistering(a) && !EvictsNow(c, es, a, n)
  }

  lemma EnrolledStep(c: Config, es: seq<Event>, a: Addr, j: nat)
    requires es != [] && j < |es| - 1
    ensures var n := |es| - 1;
            Enrolled(c, es, a, j) <==> Enrolled(c, es[..n], a, j) && es[n] != Unregistering(a) && !EvictsNow(c, es, a, n)
  {
    var front := es[..|es| - 1];
    forall n | 0 <= n < |front| ensures front[n] == es[n] && EvictsNow(c, front, a, n) == EvictsNow(c, es, a, n) {
      assert front[..n] == es[..n];
    }
    hide EvictsNow;
  }

  lemma {:induction false} TrackedIff(c: Config, es: seq<Event>, a: Addr)
    ensures Track(c, es, a).Present? <==> exists j :: Enrolled(c, es, a, j)
  {
    if es != [] {
      var n := |es| - 1;
      var front := es[..n];
      TrackedIff(c, front, a);
      forall j: nat | j < n
        ensures Enrolled(c, es, a, j) <==> Enrolled(c, front, a, j) && es[n] != Unregistering(a) && !EvictsNow(c, es, a, n)
      {
        EnrolledStep(c, es, a, j);
      }
      LastEnrols(c, es, a);
      assert Track(c, es, a) == TrackNext(c, Track(c, front, a), es[n], a);
      forall j: nat | Enrolled(c, es, a, j) ensures j <= n {}
      forall j: nat | Enrolled(c, front, a, j) ensures j < n {}
      hide Enrolled, EvictedBy, SentIn, TriedIn;
    }
  }

  lemma LastEnrols(c: Config, es: seq<Event>, a: Addr)
    requires es != []
    ensures Enrolled(c, es, a, |es| - 1) <==> es[|es| - 1].Registering? && es[|es| - 1].a == a
  {
  }

  /** A subscriber is in the registry exactly when some registration of it is followed by no
      unregistration of it and by no publish that evicts it: one without a refused send, at a tick that
      is due, when it has been silent for too long. */
  lemma MemberIff(c: Config, es: seq<Event>, a: Addr)
    requires Genuine(c, EMPTY, es)
    ensures a in Run(c, EMPTY, es).entries <==> exists j :: Enrolled(c, es, a, j)
  {
    TrackRun(c, es, a);
    TrackedIff(c, es, a);
    hide Run, Track, Genuine, Enrolled;
  }

  lemma RemovedAt(c: Config, es: seq<Event>, visits: Turns, a: Addr) returns (i: nat, l: Life)
    requires Genuine(c, EMPTY, es) && Walks(visits, Run(c, EMPTY, es).entries)
    requires a in Run(c, EMPTY, es).entries && a !in PublishWalk(c, Run(c, EMPTY, es), visits).r.entries
    ensures Track(c, es, a) == Present(l) && i < |visits| && visits[i].key == a && NoneRefused(visits, |visits|)
    ensures DueAndSilent(c, l.sent, l.heard, visits[i].now)
  {
    TrackRun(c, es, a);
    assert |EMPTY.entries| == 0;
    RunCounts(c, EMPTY, es);
    hide PublishWalk, Run, Track, Walks, Accurate, DueAndSilent, Genuine, Expected;
    l := Track(c, es, a).l;
    PublishInfo(c, Run(c, EMPTY, es), visits, a, l);
    assert EvictedBy(c, l, visits, a);
    i :| 0 <= i < |visits| && visits[i].key == a && DueAndSilent(c, l.sent, l.heard, visits[i].now);
  }

  /** A subscriber that a publish removes has been sent the message, nobody was refused, the number of
      sends to it since its registration is a multiple of the check interval, any if that is 0, and it
      was silent for longer than the timeout. */
  lemma RemovedWhenDue(c: Config, es: seq<Event>, visits: Turns, a: Addr) returns (i: nat, l: Life)
    requires Genuine(c, EMPTY, es) && Walks(visits, Run(c, EMPTY, es).entries)
    requires a in Run(c, EMPTY, es).entries && a !in PublishWalk(c, Run(c, EMPTY, es), visits).r.entries
    ensures Track(c, es, a) == Present(l) && i < |visits| && visits[i].key == a && NoneRefused(visits, |visits|)
    ensures c.checkEvery == 0 || (l.sent + 1) % 0x1_0000_0000_0000_0000 % c.checkEvery == 0
    ensures (visits[i].now - l.heard) % 0x1_0000_0000_0000_0000 > c.timeout
  {
    i, l := RemovedAt(c, es, visits, a);
    hide *;
    DueMeans(c, false, l.sent, l.heard, visits[i].now);
  }

  // Every send succeeds.
  predicate AllSucceed(es: seq<Event>) {
    forall n :: 0 <= n < |es| && es[n].Publishing? ==> NoneRefused(es[n].visits, |es[n].visits|)
  }

  // Publishes since the registration of a took effect.
  function Age(c: Config, es: seq<Event>, a: Addr): nat {
    if es == [] then 0 else
    var front, e := es[..|es| - 1], es[|es| - 1];
    if e.Registering? && e.a == a && Track(c, front, a).Absent? then 0
    else Age(c, front, a) + if e.Publishing? then 1 else 0
  }

  /** While no send is refused both counts are the publishes since the registration. */
  lemma {:induction false} AgeRun(c: Config, es: seq<Event>, a: Addr)
    requires Genuine(c, EMPTY, es) && AllSucceed(es) && a in Run(c, EMPTY, es).entries
    ensures var t := Track(c, es, a); t.Present? && t.l.sent == t.l.tried == Age(c, es, a)
  {
    TrackRun(c, es, a);
    if es != [] {
      var front, e := es[..|es| - 1], es[|es| - 1];
      var r := Run(c, EMPTY, front);
      assert |EMPTY.entries| == 0;
      RunCounts(c, EMPTY, front);
      TrackRun(c, front, a);
      if a in r.entries { AgeRun(c, front, a); }
      if e.Publishing? {
        PublishCounts(c, r, e.visits);
        var i := WalkIndex(e.visits, r.entries, a);
        TurnOf(e.visits, i);
        hide PublishWalk, NoneRefused, Accurate, EvictedBy, Expected;
      } else {
        hide PublishWalk, Count16, EvictedBy, Expected;
      }
    }
  }

  // ---------- eviction ----------

  /** A publish removes a subscriber exactly when no send is refused, its new tick is due for a check and
      the clock shows it silent for longer than the timeout; a clock behind the last heartbeat counts as
      a long silence. */
  lemma RemovedIff(c: Config, r: Registry, visits: Turns, i: nat)
    requires Accurate(r) && Walks(visits, r.entries) && i < |visits| && c.timeout < 0x1_0000_0000_0000_0000
    requires visits[i].key in r.entries ==>
      -0x1_0000_0000_0000_0000 < visits[i].now - r.entries[visits[i].key].lastHb < 0x1_0000_0000_0000_0000
    ensures visits[i].key in r.entries
    ensures var info, now := r.entries[visits[i].key], visits[i].now;
            visits[i].key !in PublishWalk(c, r, visits).r.entries <==>
            && NoneRefused(visits, |visits|)
            && (c.checkEvery == 0 || (info.ticks + 1) % 0x1_0000_0000_0000_0000 % c.checkEvery == 0)
            && (now - info.lastHb > c.timeout ||
                (now < info.lastHb && info.lastHb - now < 0x1_0000_0000_0000_0000 - c.timeout))
  {
    PublishEffect(c, r, visits, i);
    var info := r.entries[visits[i].key];
    LateIff(c, info, visits[i].now);
    hide PublishWalk, TimedOut, Bump, CheckDue, NoneRefused;
  }

  lemma LateIff(c: Config, i: ConnInfo, now: Time)
    requires c.timeout < 0x1_0000_0000_0000_0000
    requires -0x1_0000_0000_0000_0000 < now - i.lastHb < 0x1_0000_0000_0000_0000
    ensures TimedOut(c, Bump(i), now) <==>
            && (c.checkEvery == 0 || (i.ticks + 1) % 0x1_0000_0000_0000_0000 % c.checkEvery == 0)
            && (now - i.lastHb > c.timeout || (now < i.lastHb && i.lastHb - now < 0x1_0000_0000_0000_0000 - c.timeout))
  {
    var d := now - i.lastHb;
    if d < 0 {
      assert Wrap64(d) == d + 0x1_0000_0000_0000_0000;
    }
  }

  // The event does not come from a, nor on its behalf.
  predicate Foreign(e: Event, a: Addr) {
    e.Publishing? || e.a != a
  }

  predicate AllForeign(es: seq<Event>, a: Addr) {
    forall n :: 0 <= n < |es| ==> Foreign(es[n], a)
  }

  // Successful sends to a.
  function SendsTo(es: seq<Event>, a: Addr): nat {
    if es == [] then 0 else
    var e := es[|es| - 1];
    SendsTo(es[..|es| - 1], a) + if e.Publishing? && SentIn(e.visits, a) then 1 else 0
  }

  // Whenever it is the turn of a, last heard at a given time, it has been silent for too long.
  predicate AllLate(c: Config, es: seq<Event>, a: Addr, heard: Time) {
    forall n, i :: 0 <= n < |es| && es[n].Publishing? && 0 <= i < |es[n].visits| && es[n].visits[i].key == a ==>
      c.timeout < es[n].visits[i].now - heard < 0x1_0000_0000_0000_0000
  }

  // The n-th event sends to a, refuses nobody, and brings a to a tick that is due for a check.
  predicate EvictsAt(c: Config, es: seq<Event>, a: Addr, start: nat, n: nat)
    requires n < |es|
  {
    && es[n].Publishing? && NoneRefused(es[n].visits, |es[n].visits|) && SentIn(es[n].visits, a)
    && (c.checkEvery == 0 || (start + SendsTo(es[..n + 1], a)) % c.checkEvery == 0)
  }

  predicate Evicts(c: Config, es: seq<Event>, a: Addr, start: nat) {
    exists n :: 0 <= n < |es| && EvictsAt(c, es, a, start, n)
  }

  lemma EvictsStep(c: Config, es: seq<Event>, a: Addr, start: nat)
    requires es != []
    ensures Evicts(c, es, a, start) <==> Evicts(c, es[..|es| - 1], a, start) || EvictsAt(c, es, a, start, |es| - 1)
  {
    var front := es[..|es| - 1];
    forall n | 0 <= n < |front| ensures EvictsAt(c, front, a, start, n) == EvictsAt(c, es, a, start, n) {
      assert front[..n + 1] == es[..n + 1];
    }
    hide EvictsAt;
  }

  // Where a stands after events that brought it so many sends.
  ghost predicate Standing(c: Config, r: Registry, es: seq<Event>, a: Addr, heard: Time, start: nat) {
    && (a !in r.entries <==> Evicts(c, es, a, start))
    && (a in r.entries ==> r.entries[a].ticks == start + SendsTo(es, a) && r.entries[a].lastHb == heard)
  }

  lemma ModSmall(n: nat)
    requires n < 0x1_0000_0000_0000_0000
    ensures Wrap64(n) == n
  {
  }

  // One publish while a is late.
  lemma LatePublish(c: Config, r: Registry, visits: Turns, a: Addr)
    requires Accurate(r) && Walks(visits, r.entries) && a in r.entries
    requires r.entries[a].ticks + (if SentIn(visits, a) then 1 else 0) < 0x1_0000_0000_0000_0000
    requires forall i :: 0 <= i < |visits| && visits[i].key == a ==>
               c.timeout < visits[i].now - r.entries[a].lastHb < 0x1_0000_0000_0000_0000
    ensures var r', info := PublishWalk(c, r, visits).r, r.entries[a];
            && (a !in r'.entries <==>
                  && NoneRefused(visits, |visits|) && SentIn(visits, a)
                  && (c.checkEvery == 0 || (info.ticks + 1) % c.checkEvery == 0))
            && (a in r'.entries ==> r'.entries[a].lastHb == info.lastHb &&
                                    r'.entries[a].ticks == info.ticks + if SentIn(visits, a) then 1 else 0)
  {
    var i := WalkIndex(visits, r.entries, a);
    PublishEffect(c, r, visits, i);
    TurnOf(visits, i);
    hide PublishWalk, NoneRefused, SentIn, Accurate, Walks, TimedOut, Bump;
    if SentIn(visits, a) { LateTick(c, r.entries[a], visits[i].now); }
  }

  // The tick of a late subscriber.
  lemma LateTick(c: Config, info: ConnInfo, now: Time)
    requires info.ticks + 1 < 0x1_0000_0000_0000_0000 && c.timeout < now - info.lastHb < 0x1_0000_0000_0000_0000
    ensures Bump(info).ticks == info.ticks + 1 && Bump(info).lastHb == info.lastHb
    ensures TimedOut(c, Bump(info), now) <==> c.checkEvery == 0 || (info.ticks + 1) % c.checkEvery == 0
  {
    ModSmall(info.ticks + 1);
    ModSmall(now - info.lastHb);
    hide Wrap64;
  }

  lemma SilentPublish(c: Config, r: Registry, es: seq<Event>, a: Addr, heard: Time, start: nat)
    requires es != [] && es[|es| - 1].Publishing?
    requires Accurate(r) && Walks(es[|es| - 1].visits, r.entries)
    requires start + SendsTo(es, a) < 0x1_0000_0000_0000_0000 && AllLate(c, es, a, heard)
    requires Standing(c, r, es[..|es| - 1], a, heard, start)
    ensures Standing(c, PublishWalk(c, r, es[|es| - 1].visits).r, es, a, heard, start)
  {
    var e := es[|es| - 1];
    EvictsStep(c, es, a, start);
    assert es[..|es|] == es;
    hide Evicts, CheckDue, NoneRefused, SentIn, Walks;
    PublishCounts(c, r, e.visits);
    if a in r.entries { LatePublish(c, r, e.visits, a); }
    hide PublishWalk, Accurate, AllLate;
  }

  lemma SilentStep(c: Config, r: Registry, es: seq<Event>, a: Addr, heard: Time, start: nat)
    requires es != []
    requires Accurate(r) && GenuineEvent(r, es[|es| - 1]) && Foreign(es[|es| - 1], a)
    requires start + SendsTo(es, a) < 0x1_0000_0000_0000_0000 && AllLate(c, es, a, heard)
    requires Standing(c, r, es[..|es| - 1], a, heard, start)
    ensures Standing(c, Next(c, r, es[|es| - 1]), es, a, heard, start)
  {
    if es[|es| - 1].Publishing? {
      hide Standing, PublishWalk, AllLate, Walks, SentIn;
      SilentPublish(c, r, es, a, heard, start);
    } else {
      EvictsStep(c, es, a, start);
      hide Evicts, AllLate, Count16, PublishWalk;
    }
  }

  /** A subscriber that is late at all its turns is gone exactly when a publish without a refused send
      has brought it to a tick that is due for a check, whatever happens to the others meanwhile. */
  lemma {:induction false} SilentRun(c: Config, r: Registry, a: Addr, es: seq<Event>)
    requires Accurate(r) && Genuine(c, r, es) && a in r.entries && AllForeign(es, a)
    requires r.entries[a].ticks + SendsTo(es, a) < 0x1_0000_0000_0000_0000
    requires AllLate(c, es, a, r.entries[a].lastHb)
    ensures Standing(c, Run(c, r, es), es, a, r.entries[a].lastHb, r.entries[a].ticks)
  {
    if es != [] {
      var front := es[..|es| - 1];
      RunCounts(c, r, front);
      LateFront(c, es, a, r.entries[a].lastHb);
      SilentRun(c, r, a, front);
      hide Next, Standing, Accurate, AllLate, GenuineEvent;
      SilentStep(c, Run(c, r, front), es, a, r.entries[a].lastHb, r.entries[a].ticks);
    }
  }

  lemma LateFront(c: Config, es: seq<Event>, a: Addr, heard: Time)
    requires es != [] && AllLate(c, es, a, heard)
    ensures AllLate(c, es[..|es| - 1], a, heard)
  {
    var front := es[..|es| - 1];
    forall n, i | 0 <= n < |front| && front[n].Publishing? && 0 <= i < |front[n].visits| && front[n].visits[i].key == a
      ensures c.timeout < front[n].visits[i].now - heard < 0x1_0000_0000_0000_0000
    {
      assert front[n] == es[n];
    }
  }

  lemma SomeMultiple(start: nat, n: nat) returns (t: nat)
    requires n > 0
    ensures start < t <= start + n && t % n == 0
  {
    t := start + n - start % n;
    var k := start / n;
    assert t == n * (k + 1);
    MultipleOf(n, k + 1);
  }

  lemma {:induction false} MultipleOf(n: nat, k: nat)
    requires n > 0
    ensures (n * k) % n == 0
  {
    if k > 0 {
      MultipleOf(n, k - 1);
      assert n * k == n * (k - 1) + n;
      AddOnce(n * (k - 1), n);
    }
  }

  lemma AddOnce(x: nat, n: nat)
    requires n > 0
    ensures (x + n) % n == x % n
  {
    var q, q' := x / n, (x + n) / n;
    Multiples(n, q' - q);
    assert n * (q' - q) == n * q' - n * q;
  }

  // A multiple of n strictly between 0 and 2 n is n.
  lemma Multiples(n: nat, k: int)
    requires n > 0
    ensures 0 < n * k < 2 * n ==> n * k == n
  {
    if k >= 2 { assert n * k >= n * 2; }
    if k <= 0 { assert n * k <= 0; }
  }

  function Publishes(es: seq<Event>): nat {
    if es == [] then 0 else Publishes(es[..|es| - 1]) + if es[|es| - 1].Publishing? then 1 else 0
  }

  // As long as a is there and nothing is refused, every publish sends to it.
  lemma {:induction false} EveryPublishSends(c: Config, r: Registry, a: Addr, es: seq<Event>)
    requires Accurate(r) && Genuine(c, r, es) && AllSucceed(es) && AllForeign(es, a)
    ensures SendsTo(es, a) <= Publishes(es)
    ensures a in Run(c, r, es).entries ==> a in r.entries && SendsTo(es, a) == Publishes(es)
  {
    if es != [] {
      var front, e := es[..|es| - 1], es[|es| - 1];
      var before := Run(c, r, front);
      EveryPublishSends(c, r, a, front);
      RunCounts(c, r, front);
      if e.Publishing? {
        PublishCounts(c, before, e.visits);
        if a in before.entries {
          var i := WalkIndex(e.visits, before.entries, a);
          TurnOf(e.visits, i);
        }
        hide PublishWalk, NoneRefused, SentIn, Accurate, Walks;
      } else {
        hide PublishWalk, Count16;
      }
    }
  }

  // The event that brought a its k-th send.
  lemma {:induction false} KthSend(es: seq<Event>, a: Addr, k: nat) returns (n: nat)
    requires 1 <= k <= SendsTo(es, a)
    ensures n < |es| && es[n].Publishing? && SentIn(es[n].visits, a) && SendsTo(es[..n + 1], a) == k
  {
    hide SentIn;
    var front := es[..|es| - 1];
    if k <= SendsTo(front, a) {
      n := KthSend(front, a, k);
      assert front[..n + 1] == es[..n + 1];
    } else {
      n := |es| - 1;
      assert es[..n + 1] == es;
    }
  }

  // Enough sends without a refusal bring a to a tick that is due.
  lemma DueSend(c: Config, es: seq<Event>, a: Addr, start: nat)
    requires AllSucceed(es) && SendsTo(es, a) >= (if c.checkEvery == 0 then 1 else c.checkEvery)
    ensures Evicts(c, es, a, start)
  {
    hide SentIn, NoneRefused;
    var t := start + 1;
    if c.checkEvery != 0 { t := SomeMultiple(start, c.checkEvery); }
    var n := KthSend(es, a, t - start);
    assert EvictsAt(c, es, a, start, n);
  }

  /** A subscriber that stays silent past the timeout is gone after as many successful publishes as the
      check interval, or one if that is 0, whatever happens to the others meanwhile. */
  lemma SilentIsEvicted(c: Config, r: Registry, a: Addr, es: seq<Event>)
    requires Accurate(r) && Genuine(c, r, es) && a in r.entries && AllForeign(es, a) && AllSucceed(es)
    requires r.entries[a].ticks + Publishes(es) < 0x1_0000_0000_0000_0000
    requires AllLate(c, es, a, r.entries[a].lastHb)
    requires Publishes(es) >= (if c.checkEvery == 0 then 1 else c.checkEvery)
    ensures a !in Run(c, r, es).entries
  {
    EveryPublishSends(c, r, a, es);
    SilentRun(c, r, a, es);
    hide Run, Genuine, AllForeign, AllLate, Accurate, Evicts, AllSucceed;
    if a in Run(c, r, es).entries {
      DueSend(c, es, a, r.entries[a].ticks);
    }
  }

  // At its turn a has been heard of within the timeout, by a clock that has not gone back.
  predicate InTime(c: Config, r: Registry, a: Addr, e: Event) {
    e.Publishing? && a in r.entries ==>
      forall i :: 0 <= i < |e.visits| && e.visits[i].key == a ==> 0 <= e.visits[i].now - r.entries[a].lastHb <= c.timeout
  }

  predicate AlwaysInTime(c: Config, r: Registry, a: Addr, es: seq<Event>) {
    es != [] ==>
      var front := es[..|es| - 1];
      AlwaysInTime(c, r, a, front) && InTime(c, Run(c, r, front), a, es[|es| - 1])
  }

  lemma NotLate(c: Config, i: ConnInfo, now: Time)
    requires 0 <= now - i.lastHb <= c.timeout
    ensures !TimedOut(c, Bump(i), now)
  {
    ModBelow(now - i.lastHb);
    assert Bump(i).lastHb == i.lastHb;
    hide Wrap64, CheckDue, Bump;
  }

  lemma InTimeStep(c: Config, r: Registry, a: Addr, e: Event)
    requires Accurate(r) && GenuineEvent(r, e) && a in r.entries && InTime(c, r, a, e) && e != Unregistering(a)
    ensures a in Next(c, r, e).entries
  {
    if e.Publishing? {
      hide Accurate, Walks, NoneRefused, PublishWalk, TimedOut, Bump;
      var i := WalkIndex(e.visits, r.entries, a);
      PublishEffect(c, r, e.visits, i);
      NotLate(c, r.entries[a], e.visits[i].now);
    } else {
      hide Count16, PublishWalk, Accurate;
    }
  }

  /** A subscriber heard of within the timeout is never removed by publishing, refused sends or not. */
  lemma {:induction false} InTimeStays(c: Config, r: Registry, a: Addr, es: seq<Event>)
    requires Accurate(r) && Genuine(c, r, es) && a in r.entries && AlwaysInTime(c, r, a, es)
    requires forall n :: 0 <= n < |es| ==> es[n] != Unregistering(a)
    ensures a in Run(c, r, es).entries
  {
    if es != [] {
      var front := es[..|es| - 1];
      InTimeStays(c, r, a, front);
      RunCounts(c, r, front);
      InTimeStep(c, Run(c, r, front), a, es[|es| - 1]);
      hide Next, InTime, GenuineEvent, Accurate;
    }
  }

  lemma ModBelow(d: nat)
    ensures Wrap64(d) <= d
  {
  }

  // ---------- the registry as the connection holds it ----------

  class UdpPublisherConnection {
    const config: Config
    var subscribers: map<Addr, ConnInfo>
    var subscribersCount: U16

    function View(): Registry
      reads this
    {
      Table(subscribers, subscribersCount)
    }

    constructor (config: Config)
      ensures this.config == config && View() == EMPTY
    {
      this.config := config;
      subscribers, subscribersCount := map[], 0;
    }

    method RegisterSubscriber(a: Addr, now: Time)
      modifies this
      ensures View() == Register(old(View()), a, now)
    {
      if a !in subscribers {
        subscribers := subscribers[a := ConnInfo(now, 0, 0)];
        subscribersCount := |subscribers| % 0x1_0000;
      }
    }

    method UnregisterSubscriber(a: Addr)
      modifies this
      ensures View() == Unregister(old(View()), a)
    {
      if a in subscribers {
        subscribers := subscribers - {a};
        subscribersCount := |subscribers| % 0x1_0000;
      }
    }

    method OnHeartbeat(a: Addr, now: Time)
      modifies this
      ensures View() == Beat(old(View()), a, now)
    {
      if a in subscribers {
        subscribers := subscribers[a := subscribers[a].(lastHb := now)];
      }
    }

    // The sends and checks, in the iteration order of the hash map.
    method SendToAll(visits: Turns) returns (ok: bool, expired: seq<Addr>)
      requires Walks(visits, subscribers)
      modifies this`subscribers
      ensures Walk(ok, subscribers, expired) == WalkAll(config, old(subscribers), visits)
    {
      ghost var start := subscribers;
      expired := [];
      hide TimedOut, NextSession, NextTick, Walks;
      for n := 0 to |visits|
        invariant subscribers.Keys == start.Keys
        invariant Walk(true, subscribers, expired) == WalkAll(config, start, visits[..n])
      {
        var v := visits[n];
        assert visits[..n + 1][..n] == visits[..n];
        WalkKey(visits, start, n);
        var i := NextSession(subscribers[v.key]);
        subscribers := subscribers[v.key := i];
        if v.refused {
          WalkStuck(config, start, visits, n + 1);
          return false, expired;
        }
        i := NextTick(i);
        subscribers := subscribers[v.key := i];
        if TimedOut(config, i, v.now) {
          expired := expired + [v.key];
        }
      }
      assert visits[..|visits|] == visits;
      ok := true;
    }

    method PublishToSubscribed(visits: Turns) returns (ok: bool)
      requires Walks(visits, subscribers)
      modifies this
      ensures Published(ok, View()) == PublishWalk(config, old(View()), visits)
    {
      hide WalkAll, Unregister, Walks;
      var expired;
      ok, expired := SendToAll(visits);
      if !ok {
        return false;
      }
      ghost var walked := View();
      for n := 0 to |expired|
        invariant View() == RemoveAll(walked, expired[..n])
      {
        assert expired[..n + 1][..n] == expired[..n];
        UnregisterSubscriber(expired[n]);
      }
      assert expired[..|expired|] == expired;
    }
  }

  // After a failed send nothing more happens.
  lemma {:induction false} WalkStuck(c: Config, subs: map<Addr, ConnInfo>, visits: Turns, n: nat)
    requires n <= |visits| && !WalkAll(c, subs, visits[..n]).ok
    ensures WalkAll(c, subs, visits) == WalkAll(c, subs, visits[..n])
    decreases |visits|
  {
    if n < |visits| {
      var m := |visits| - 1;
      assert visits[..m][..n] == visits[..n];
      WalkStuck(c, subs, visits[..m], n);
    } else {
      assert visits[..n] == visits;
    }
  }
}
