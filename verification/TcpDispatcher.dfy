/**
 The TCP publisher's dispatcher: connections with their subscriptions, and the publishing of a
 delta to every valid connection subscribed to its symbol. Every guarded operation is one step.
 */
module TcpDispatchers {
  import opened Words
  import opened Heartbeats
  import opened Registries

  type Id = nat
  type Symbol = nat

  // valid turns false when the connection is closed and never back.
  datatype Conn = Conn(subscribed: set<Symbol>, valid: bool, lastHb: Time, ticks: U64)

  type Dispatcher = Table<Id, Conn>
  type Turns = seq<Visit<Id>>

  function Create(d: Dispatcher, id: Id): Dispatcher {
    Counted(d.entries[id := Conn({}, true, 0, 0)])
  }

  function Dispose(d: Dispatcher, id: Id): Dispatcher {
    Counted(d.entries - {id})
  }

  function Subscribe(d: Dispatcher, id: Id, symbols: set<Symbol>): Dispatcher {
    if id !in d.entries then d else
    var n := d.entries[id];
    d.(entries := d.entries[id := n.(subscribed := n.subscribed + symbols)])
  }

  function Close(d: Dispatcher, id: Id): Dispatcher {
    if id in d.entries then d.(entries := d.entries[id := d.entries[id].(valid := false)]) else d
  }

  // A login or a heartbeat.
  function Hear(d: Dispatcher, id: Id, now: Time): Dispatcher {
    if id in d.entries then d.(entries := d.entries[id := d.entries[id].(lastHb := now)]) else d
  }

  predicate Wants(d: Dispatcher, id: Id, symbol: Symbol) {
    id in d.entries && d.entries[id].valid && symbol in d.entries[id].subscribed
  }

  // get_subscribed_connections, in the iteration order of the hash map.
  function Select(d: Dispatcher, visits: Turns, symbol: Symbol): (r: Turns)
    ensures forall v :: v in r <==> v in visits && Wants(d, v.key, symbol)
  {
    if visits == [] then [] else
    var n := |visits| - 1;
    assert visits == visits[..n] + [visits[n]];
    Select(d, visits[..n], symbol) + if Wants(d, visits[n].key, symbol) then [visits[n]] else []
  }

  // The connection after a successful send: counted, and closed if it has been silent for too long.
  function Ticked(c: Config, n: Conn, now: Time): Conn {
    var tick := Wrap64(n.ticks + 1);
    n.(ticks := tick, valid := n.valid && !Silent(c, tick, n.lastHb, now))
  }

  // The connection after its turn.
  function Served(c: Config, n: Conn, v: Visit<Id>): Conn {
    if v.refused then n.(valid := false) else Ticked(c, n, v.now)
  }

  // handed are the connections send_message took the delta for.
  datatype Walk = Walk(ok: bool, d: Dispatcher, handed: seq<Id>)

  // The first refused send ends the walk.
  function Hand(c: Config, d: Dispatcher, list: Turns): Walk {
    if list == [] then Walk(true, d, []) else
    var n := |list| - 1;
    var w := Hand(c, d, list[..n]);
    var v := list[n];
    if !w.ok || v.key !in w.d.entries then w else
    Walk(!v.refused, w.d.(entries := w.d.entries[v.key := Served(c, w.d.entries[v.key], v)]),
         if v.refused then w.handed else w.handed + [v.key])
  }

  function Publish(c: Config, d: Dispatcher, symbol: Symbol, visits: Turns): Walk {
    Hand(c, d, Select(d, visits, symbol))
  }

  // ---------- one publish ----------

  function Keys(list: Turns): (r: seq<Id>)
    ensures |r| == |list|
  {
    seq(|list|, i requires 0 <= i < |list| => list[i].key)
  }

  ghost predicate Known(d: Dispatcher, list: Turns) {
    forall i :: 0 <= i < |list| ==> list[i].key in d.entries
  }

  lemma SelectKnown(d: Dispatcher, visits: Turns, symbol: Symbol)
    ensures Known(d, Select(d, visits, symbol))
  {
    var list := Select(d, visits, symbol);
    assert forall i :: 0 <= i < |list| ==> list[i] in list;
  }

  lemma {:induction false} SelectDistinct(d: Dispatcher, visits: Turns, symbol: Symbol)
    requires Distinct(visits)
    ensures Distinct(Select(d, visits, symbol))
  {
    if visits != [] {
      var n := |visits| - 1;
      SelectDistinct(d, visits[..n], symbol);
      var list := Select(d, visits[..n], symbol);
      forall i | 0 <= i < |list| ensures list[i].key != visits[n].key {
        assert list[i] in list;
        var j :| 0 <= j < n && visits[..n][j] == list[i];
        assert visits[j] == list[i];
      }
    }
  }

  // The connections wanted are those of the walk that want the symbol.
  lemma SelectWanted(d: Dispatcher, visits: Turns, symbol: Symbol, id: Id)
    requires Walks(visits, d.entries)
    ensures Visits(Select(d, visits, symbol), id) <==> Wants(d, id, symbol)
  {
    var list := Select(d, visits, symbol);
    if i :| 0 <= i < |list| && list[i].key == id { assert list[i] in list; }
    if Wants(d, id, symbol) {
      var j := WalkIndex(visits, d.entries, id);
      assert visits[j] in visits && visits[j] in list;
      var i :| 0 <= i < |list| && list[i] == visits[j];
    }
  }

  lemma {:induction false} HandPrefix(c: Config, d: Dispatcher, list: Turns)
    requires Known(d, list)
    ensures var w := Hand(c, d, list);
            && w.d.entries.Keys == d.entries.Keys && w.d.count == d.count
            && w.handed <= Keys(list) && NoneRefused(list, |w.handed|)
            && (w.ok ==> |w.handed| == |list|)
            && (!w.ok ==> |w.handed| < |list| && list[|w.handed|].refused)
  {
    if list != [] {
      var n := |list| - 1;
      HandPrefix(c, d, list[..n]);
      hide Served;
      assert Keys(list) == Keys(list[..n]) + [list[n].key];
      RefusedPrefix(list, n, |Hand(c, d, list[..n]).handed|);
    }
  }

  // Closing and counting leave subscriptions alone and never reopen a connection.
  ghost predicate OnlyCloses(d: Dispatcher, d': Dispatcher) {
    && d'.entries.Keys == d.entries.Keys && d'.count == d.count
    && forall id :: id in d.entries ==>
         d'.entries[id].subscribed == d.entries[id].subscribed && (d'.entries[id].valid ==> d.entries[id].valid)
  }

  lemma {:induction false} HandOnlyCloses(c: Config, d: Dispatcher, list: Turns)
    ensures OnlyCloses(d, Hand(c, d, list).d)
  {
    if list != [] {
      HandOnlyCloses(c, d, list[..|list| - 1]);
      hide Silent;
    }
  }

  // What the walk leaves of a connection: those up to the first refused send have had their turn.
  lemma {:induction false} HandAt(c: Config, d: Dispatcher, list: Turns, i: nat)
    requires Distinct(list) && Known(d, list) && i < |list|
    ensures var w, id := Hand(c, d, list), list[i].key;
            && w.d.entries.Keys == d.entries.Keys
            && w.d.entries[id] == if NoneRefused(list, i) then Served(c, d.entries[id], list[i]) else d.entries[id]
  {
    var n := |list| - 1;
    var front, id := list[..n], list[i].key;
    HandPrefix(c, d, front);
    HandPrefix(c, d, list);
    if i == n {
      HandOthers(c, d, front, id);
      RefusedPrefix(list, n, |Hand(c, d, front).handed|);
    } else {
      HandAt(c, d, front, i);
      RefusedPrefix(list, n, i);
      assert list[n].key != id;
    }
    hide Served, Known, Distinct;
  }

  lemma {:induction false} HandOthers(c: Config, d: Dispatcher, list: Turns, id: Id)
    requires id in d.entries && forall i :: 0 <= i < |list| ==> list[i].key != id
    ensures id in Hand(c, d, list).d.entries && Hand(c, d, list).d.entries[id] == d.entries[id]
  {
    if list != [] {
      HandOthers(c, d, list[..|list| - 1], id);
      hide Served;
    }
  }

  // When the first k have taken the delta, those and the one after them have had their turn.
  ghost predicate ServedAt(c: Config, d: Dispatcher, list: Turns, i: nat, k: nat, d': Dispatcher)
    requires i < |list|
  {
    var id := list[i].key;
    && id in d.entries && id in d'.entries
    && d'.entries[id] == if i <= k then Served(c, d.entries[id], list[i]) else d.entries[id]
  }

  /** A publish that returns true hands the delta once to every valid subscribed connection and to no
      other; one that returns false hands it to a proper prefix of them and stops at the first refused
      send. Each that was handed it is counted on, and closed if due and silent for too long at its
      turn; the one that refused it is closed; nothing else about any connection changes. */
  lemma PublishHands(c: Config, d: Dispatcher, symbol: Symbol, visits: Turns)
    requires Walks(visits, d.entries)
    ensures var w := Publish(c, d, symbol, visits);
            var wanted := Select(d, visits, symbol);
            && Distinct(wanted) && (forall id :: Visits(wanted, id) <==> Wants(d, id, symbol))
            && w.handed <= Keys(wanted)
            && (w.ok <==> NoneRefused(wanted, |wanted|))
            && (w.ok ==> w.handed == Keys(wanted))
            && (!w.ok ==> |w.handed| < |wanted| && wanted[|w.handed|].refused && NoneRefused(wanted, |w.handed|))
            && w.d.entries.Keys == d.entries.Keys && w.d.count == d.count
            && (forall i :: 0 <= i < |wanted| ==> ServedAt(c, d, wanted, i, |w.handed|, w.d))
            && (forall id :: id in d.entries && !Visits(wanted, id) ==> w.d.entries[id] == d.entries[id])
  {
    var wanted := Select(d, visits, symbol);
    SelectDistinct(d, visits, symbol);
    SelectKnown(d, visits, symbol);
    HandPrefix(c, d, wanted);
    forall id ensures Visits(wanted, id) <==> Wants(d, id, symbol) { SelectWanted(d, visits, symbol, id); }
    var w := Publish(c, d, symbol, visits);
    hide Served, Select, Hand, Walks, Wants;
    forall i | 0 <= i < |wanted|
      ensures ServedAt(c, d, wanted, i, |w.handed|, w.d)
    {
      HandAt(c, d, wanted, i);
    }
    forall id | id in d.entries && !Visits(wanted, id) ensures w.d.entries[id] == d.entries[id] {
      HandOthers(c, d, wanted, id);
    }
  }

  // ---------- runs ----------

  datatype Event =
    | Creating(id: Id)
    | Disposing(id: Id)
    | Subscribing(id: Id, symbols: set<Symbol>)
    | Closing(id: Id)
    | Hearing(id: Id, now: Time)
    | Publishing(symbol: Symbol, visits: Turns)

  function Next(c: Config, d: Dispatcher, e: Event): Dispatcher {
    match e
    case Creating(id) => Create(d, id)
    case Disposing(id) => Dispose(d, id)
    case Subscribing(id, symbols) => Subscribe(d, id, symbols)
    case Closing(id) => Close(d, id)
    case Hearing(id, now) => Hear(d, id, now)
    case Publishing(symbol, visits) => Publish(c, d, symbol, visits).d
  }

  const EMPTY: Dispatcher := Table(map[], 0)

  function Run(c: Config, es: seq<Event>): Dispatcher {
    if es == [] then EMPTY else Next(c, Run(c, es[..|es| - 1]), es[|es| - 1])
  }

  // The connections that an event hands a delta to.
  function HandedBy(c: Config, d: Dispatcher, e: Event): seq<Id> {
    match e
    case Publishing(symbol, visits) => Publish(c, d, symbol, visits).handed
    case _ => []
  }

  // At event j the connection asked for the symbol, and it has not been disposed of or created anew since.
  ghost predicate AskedFor(es: seq<Event>, id: Id, symbol: Symbol, j: nat) {
    && j < |es| && es[j].Subscribing? && es[j].id == id && symbol in es[j].symbols
    && forall i :: j < i < |es| ==> es[i] != Disposing(id) && es[i] != Creating(id)
  }

  lemma {:induction false} SubscribedAsked(c: Config, es: seq<Event>, id: Id, symbol: Symbol) returns (j: nat)
    requires id in Run(c, es).entries && symbol in Run(c, es).entries[id].subscribed
    ensures AskedFor(es, id, symbol, j)
  {
    var n := |es| - 1;
    if es[n].Subscribing? && es[n].id == id && symbol in es[n].symbols {
      j := n;
    } else {
      NextSubscribed(c, Run(c, es[..n]), es[n], id, symbol);
      hide Next;
      j := SubscribedAsked(c, es[..n], id, symbol);
      assert es[..n][j] == es[j];
      forall i | j < i < |es| ensures es[i] != Disposing(id) && es[i] != Creating(id) {
        if i < n { assert es[..n][i] == es[i]; }
      }
    }
  }

  // A subscription that an event did not make was there before it.
  lemma NextSubscribed(c: Config, d: Dispatcher, e: Event, id: Id, symbol: Symbol)
    requires !(e.Subscribing? && e.id == id && symbol in e.symbols)
    requires id in Next(c, d, e).entries && symbol in Next(c, d, e).entries[id].subscribed
    ensures id in d.entries && symbol in d.entries[id].subscribed
    ensures e != Disposing(id) && e != Creating(id)
  {
    if e.Publishing? {
      HandOnlyCloses(c, d, Select(d, e.visits, e.symbol));
    }
    hide Hand, Count16;
  }

  lemma HandedWanted(c: Config, d: Dispatcher, e: Event, id: Id)
    requires id in HandedBy(c, d, e)
    ensures e.Publishing? && Wants(d, id, e.symbol)
  {
    var list := Select(d, e.visits, e.symbol);
    SelectKnown(d, e.visits, e.symbol);
    HandPrefix(c, d, list);
    hide Hand;
    var handed := HandedBy(c, d, e);
    var i :| 0 <= i < |handed| && handed[i] == id;
    assert Keys(list)[i] == id && list[i] in list;
  }

  /** After any run, a connection is only handed deltas for symbols that it has asked for. */
  lemma OnlySubscribed(c: Config, es: seq<Event>, e: Event, id: Id) returns (j: nat)
    requires id in HandedBy(c, Run(c, es), e)
    ensures e.Publishing? && AskedFor(es, id, e.symbol, j)
  {
    HandedWanted(c, Run(c, es), e, id);
    j := SubscribedAsked(c, es, id, e.symbol);
  }

  // Closed or gone.
  predicate Down(d: Dispatcher, id: Id) {
    id in d.entries ==> !d.entries[id].valid
  }

  // One event does not reopen a closed connection.
  lemma NextStaysDown(c: Config, d: Dispatcher, e: Event, id: Id)
    requires Down(d, id) && e != Creating(id)
    ensures Down(Next(c, d, e), id)
  {
    if e.Publishing? {
      HandOnlyCloses(c, d, Select(d, e.visits, e.symbol));
    }
    hide Hand, Count16;
  }

  lemma RunLast(c: Config, es: seq<Event>, e: Event)
    ensures Run(c, es + [e]) == Next(c, Run(c, es), e)
  {
    assert (es + [e])[..|es|] == es;
  }

  lemma {:induction false} StaysDown(c: Config, es: seq<Event>, more: seq<Event>, id: Id)
    requires Down(Run(c, es), id) && Creating(id) !in more
    ensures Down(Run(c, es + more), id)
  {
    if more == [] {
      assert es + more == es;
    } else {
      var n := |more| - 1;
      hide Run, Next, Down;
      assert more == more[..n] + [more[n]];
      StaysDown(c, es, more[..n], id);
      assert es + more == (es + more[..n]) + [more[n]];
      RunLast(c, es + more[..n], more[n]);
      NextStaysDown(c, Run(c, es + more[..n]), more[n], id);
    }
  }

  /** After any run, a connection that was closed, by its reader, by a refused send or for its silence,
      or disposed of, is handed nothing more, whatever has happened since. */
  lemma NoneAfterClose(c: Config, es: seq<Event>, more: seq<Event>, e: Event, id: Id)
    requires Down(Run(c, es), id) && Creating(id) !in more
    ensures id !in HandedBy(c, Run(c, es + more), e)
  {
    StaysDown(c, es, more, id);
    if id in HandedBy(c, Run(c, es + more), e) {
      HandedWanted(c, Run(c, es + more), e, id);
    }
  }

  lemma NextCounts(c: Config, d: Dispatcher, e: Event)
    requires Accurate(d)
    ensures Accurate(Next(c, d, e))
  {
    var d' := Next(c, d, e);
    if e.Publishing? {
      HandOnlyCloses(c, d, Select(d, e.visits, e.symbol));
    }
    if d'.entries.Keys == d.entries.Keys {
      SameSize(d.entries, d'.entries);
    }
    hide Publish, Count16;
  }

  /** In every reachable state, refused sends included, the atomic count is the number of connections
      modulo 2^16. */
  lemma {:induction false} CountRun(c: Config, es: seq<Event>)
    ensures Run(c, es).count == |Run(c, es).entries| % 0x1_0000
  {
    if es == [] {
      assert |EMPTY.entries| == 0;
    } else {
      CountRun(c, es[..|es| - 1]);
      NextCounts(c, Run(c, es[..|es| - 1]), es[|es| - 1]);
      hide Next;
    }
  }

  // ---------- one connection's life, from the events alone ----------

  // What has happened to a connection since it was created.
  datatype Seat = Seat(subscribed: set<Symbol>, valid: bool, heard: Time, sent: nat)
  datatype Tracked = Absent | Present(s: Seat)

  function AfterTurn(c: Config, s: Seat, refused: bool, now: Time): Seat {
    if refused then s.(valid := false)
    else s.(sent := s.sent + 1, valid := s.valid && !DueAndSilent(c, s.sent, s.heard, now))
  }

  // The turn of id, or the number of turns when it has none.
  function TurnOf(visits: Turns, id: Id): (i: nat)
    ensures i <= |visits| && (i < |visits| ==> visits[i].key == id)
    ensures i == |visits| <==> !Visits(visits, id)
  {
    if visits == [] then 0 else
    var n := |visits| - 1;
    var i := TurnOf(visits[..n], id);
    if i < n then assert visits[..n][i] == visits[i]; i else
    assert forall j :: 0 <= j < n ==> visits[..n][j] == visits[j];
    if visits[n].key == id then n else n + 1
  }

  predicate AsksFor(t: Tracked, symbol: Symbol) {
    t.Present? && t.s.valid && symbol in t.s.subscribed
  }

  // Nobody who wants the symbol has refused it before the i-th turn.
  predicate Reached(c: Config, es: seq<Event>, symbol: Symbol, visits: Turns, i: nat)
    requires i <= |visits|
    decreases |es|, 1
  {
    forall j :: 0 <= j < i ==> !(visits[j].refused && AsksFor(Track(c, es, visits[j].key), symbol))
  }

  function Track(c: Config, es: seq<Event>, id: Id): Tracked
    decreases |es|, 0
  {
    if es == [] then Absent else
    var front := es[..|es| - 1];
    var t := Track(c, front, id);
    match es[|es| - 1]
    case Creating(k) => if k == id then Present(Seat({}, true, 0, 0)) else t
    case Disposing(k) => if k == id then Absent else t
    case Subscribing(k, symbols) => if k == id && t.Present? then Present(t.s.(subscribed := t.s.subscribed + symbols)) else t
    case Closing(k) => if k == id && t.Present? then Present(t.s.(valid := false)) else t
    case Hearing(k, now) => if k == id && t.Present? then Present(t.s.(heard := now)) else t
    case Publishing(symbol, visits) => TrackPublish(c, front, symbol, visits, id, t)
  }

  function TrackPublish(c: Config, es: seq<Event>, symbol: Symbol, visits: Turns, id: Id, t: Tracked): Tracked
    decreases |es|, 2
  {
    var i := TurnOf(visits, id);
    if !AsksFor(t, symbol) || i == |visits| || !Reached(c, es, symbol, visits, i) then t
    else Present(AfterTurn(c, t.s, visits[i].refused, visits[i].now))
  }

  lemma TrackPublishes(c: Config, es: seq<Event>, symbol: Symbol, visits: Turns, id: Id)
    ensures Track(c, es + [Publishing(symbol, visits)], id) == TrackPublish(c, es, symbol, visits, id, Track(c, es, id))
  {
    assert (es + [Publishing(symbol, visits)])[..|es|] == es;
    hide TrackPublish;
  }

  ghost predicate GenuineEvent(d: Dispatcher, e: Event) {
    e.Publishing? ==> Walks(e.visits, d.entries)
  }

  // Every publish walks the map as it is at the time, in some order.
  ghost predicate Genuine(c: Config, es: seq<Event>) {
    es != [] ==>
      var front := es[..|es| - 1];
      Genuine(c, front) && GenuineEvent(Run(c, front), es[|es| - 1])
  }

  // What the dispatcher should hold of a connection.
  function Expected(s: Seat): Conn {
    Conn(s.subscribed, s.valid, s.heard, Wrap64(s.sent))
  }

  ghost predicate Agrees(d: Dispatcher, id: Id, t: Tracked) {
    (id in d.entries <==> t.Present?) && (id in d.entries ==> d.entries[id] == Expected(t.s))
  }

  ghost predicate AllAgree(c: Config, es: seq<Event>, d: Dispatcher) {
    forall id :: Agrees(d, id, Track(c, es, id))
  }

  lemma ServedSeat(c: Config, s: Seat, v: Visit<Id>)
    ensures Served(c, Expected(s), v) == Expected(AfterTurn(c, s, v.refused, v.now))
  {
    SilentIff(c, s.sent, s.heard, v.now);
    WrapNext64(s.sent);
    hide Silent, DueAndSilent;
  }

  // ---------- a publish turn by turn ----------

  // Nobody who wants the symbol has refused it before the i-th turn.
  predicate Reach(d: Dispatcher, symbol: Symbol, visits: Turns, i: nat)
    requires i <= |visits|
  {
    forall j :: 0 <= j < i ==> !(visits[j].refused && Wants(d, visits[j].key, symbol))
  }

  // What a publish does to the connection of the i-th turn.
  ghost predicate TakesTurn(c: Config, d: Dispatcher, symbol: Symbol, visits: Turns, i: nat, w: Walk)
    requires i < |visits|
  {
    var id := visits[i].key;
    && id in d.entries && id in w.d.entries
    && w.d.entries[id] == (if Wants(d, id, symbol) && Reach(d, symbol, visits, i) then Served(c, d.entries[id], visits[i])
                           else d.entries[id])
    && (id in w.handed <==> Wants(d, id, symbol) && Reach(d, symbol, visits, i) && !visits[i].refused)
  }

  function Turn(c: Config, d: Dispatcher, symbol: Symbol, w: Walk, v: Visit<Id>): Walk {
    if !Wants(d, v.key, symbol) || !w.ok || v.key !in w.d.entries then w else
    Walk(!v.refused, w.d.(entries := w.d.entries[v.key := Served(c, w.d.entries[v.key], v)]),
         if v.refused then w.handed else w.handed + [v.key])
  }

  lemma PublishStep(c: Config, d: Dispatcher, symbol: Symbol, visits: Turns)
    requires visits != []
    ensures var n := |visits| - 1;
            Publish(c, d, symbol, visits) == Turn(c, d, symbol, Publish(c, d, symbol, visits[..n]), visits[n])
  {
    hide Wants, Served;
    var n := |visits| - 1;
    var list := Select(d, visits[..n], symbol);
    if Wants(d, visits[n].key, symbol) {
      assert Select(d, visits, symbol) == list + [visits[n]];
      HandLast(c, d, list, visits[n]);
      hide Hand;
    } else {
      assert Select(d, visits, symbol) == list + [] == list;
      hide Hand;
    }
  }

  lemma HandLast(c: Config, d: Dispatcher, list: Turns, v: Visit<Id>)
    ensures var w := Hand(c, d, list);
            Hand(c, d, list + [v]) ==
            if !w.ok || v.key !in w.d.entries then w else
            Walk(!v.refused, w.d.(entries := w.d.entries[v.key := Served(c, w.d.entries[v.key], v)]),
                 if v.refused then w.handed else w.handed + [v.key])
  {
    hide Served;
    assert (list + [v])[..|list|] == list;
  }

  lemma ReachPrefix(d: Dispatcher, symbol: Symbol, visits: Turns, n: nat, i: nat)
    requires i <= n <= |visits|
    ensures Reach(d, symbol, visits[..n], i) == Reach(d, symbol, visits, i)
  {
    hide Wants;
    assert forall j :: 0 <= j < i ==> visits[..n][j] == visits[j];
  }

  lemma {:induction false} PublishOk(c: Config, d: Dispatcher, symbol: Symbol, visits: Turns)
    ensures var w := Publish(c, d, symbol, visits);
            && w.d.entries.Keys == d.entries.Keys && w.d.count == d.count
            && (w.ok <==> Reach(d, symbol, visits, |visits|))
            && forall id :: id in d.entries && !Visits(visits, id) ==> w.d.entries[id] == d.entries[id] && id !in w.handed
  {
    hide Publish, Served;
    if visits == [] {
      EmptyPublish(c, d, symbol);
    } else {
      var n := |visits| - 1;
      PublishStep(c, d, symbol, visits);
      PublishOk(c, d, symbol, visits[..n]);
      ReachPrefix(d, symbol, visits, n, n);
      forall id | !Visits(visits, id) ensures !Visits(visits[..n], id) && visits[n].key != id {
        assert forall i :: 0 <= i < n ==> visits[..n][i] == visits[i];
      }
      hide Visits, Wants;
      ReachLast(d, symbol, visits);
    }
  }

  lemma ReachLast(d: Dispatcher, symbol: Symbol, visits: Turns)
    requires visits != []
    ensures var n := |visits| - 1;
            Reach(d, symbol, visits, n + 1) <==>
            Reach(d, symbol, visits, n) && !(visits[n].refused && Wants(d, visits[n].key, symbol))
  {
    hide Wants;
  }

  lemma EmptyPublish(c: Config, d: Dispatcher, symbol: Symbol)
    ensures Publish(c, d, symbol, []) == Walk(true, d, [])
  {
  }

  /** At its turn a connection is served exactly if it wants the symbol and nobody who wants it has
      refused before, and it is handed the delta exactly if it then does not refuse itself. */
  lemma {:induction false} PublishTurn(c: Config, d: Dispatcher, symbol: Symbol, visits: Turns, i: nat)
    requires Distinct(visits) && (forall j :: 0 <= j < |visits| ==> visits[j].key in d.entries) && i < |visits|
    ensures TakesTurn(c, d, symbol, visits, i, Publish(c, d, symbol, visits))
  {
    hide Publish, Served, Wants;
    var n := |visits| - 1;
    var front, id := visits[..n], visits[i].key;
    PublishStep(c, d, symbol, visits);
    PublishOk(c, d, symbol, front);
    assert forall j :: 0 <= j < n ==> front[j] == visits[j];
    if i == n {
      assert !Visits(front, id);
      ReachPrefix(d, symbol, visits, n, n);
      hide Reach;
    } else {
      PublishTurn(c, d, symbol, front, i);
      ReachPrefix(d, symbol, visits, n, i);
      assert visits[n].key != id;
      hide Reach, Distinct;
    }
  }

  // ---------- runs and lives ----------

  lemma ReachedSame(c: Config, es: seq<Event>, d: Dispatcher, symbol: Symbol, visits: Turns, i: nat)
    requires AllAgree(c, es, d) && i <= |visits|
    ensures Reached(c, es, symbol, visits, i) == Reach(d, symbol, visits, i)
  {
    forall id ensures AsksFor(Track(c, es, id), symbol) <==> Wants(d, id, symbol) {
      assert Agrees(d, id, Track(c, es, id));
    }
    hide Track, Wants, AsksFor;
  }

  lemma PublishAgrees(c: Config, es: seq<Event>, d: Dispatcher, symbol: Symbol, visits: Turns, id: Id)
    requires AllAgree(c, es, d) && Walks(visits, d.entries)
    ensures Agrees(Publish(c, d, symbol, visits).d, id, Track(c, es + [Publishing(symbol, visits)], id))
  {
    var t, i := Track(c, es, id), TurnOf(visits, id);
    assert Agrees(d, id, t);
    TrackPublishes(c, es, symbol, visits, id);
    PublishOk(c, d, symbol, visits);
    hide Track, Publish, Served, Reached, AfterTurn, Expected;
    if i < |visits| {
      forall j | 0 <= j < |visits| ensures visits[j].key in d.entries { WalkKey(visits, d.entries, j); }
      PublishTurn(c, d, symbol, visits, i);
      ReachedSame(c, es, d, symbol, visits, i);
      WantsSame(d, id, t, symbol);
      hide Wants, AsksFor, Reach, Walks, AllAgree;
      if t.Present? { ServedSeat(c, t.s, visits[i]); }
    }
  }

  lemma WantsSame(d: Dispatcher, id: Id, t: Tracked, symbol: Symbol)
    requires Agrees(d, id, t)
    ensures AsksFor(t, symbol) <==> Wants(d, id, symbol)
  {
  }

  lemma OthersAgree(c: Config, es: seq<Event>, d: Dispatcher, e: Event, id: Id)
    requires Agrees(d, id, Track(c, es, id)) && !e.Publishing?
    ensures Agrees(Next(c, d, e), id, Track(c, es + [e], id))
  {
    assert (es + [e])[..|es|] == es;
    assert Wrap64(0) == 0;
    hide Count16, Wrap64;
  }

  lemma TrackStep(c: Config, es: seq<Event>, d: Dispatcher, e: Event, id: Id)
    requires AllAgree(c, es, d) && GenuineEvent(d, e)
    ensures Agrees(Next(c, d, e), id, Track(c, es + [e], id))
  {
    if e.Publishing? {
      PublishAgrees(c, es, d, e.symbol, e.visits, id);
      NextPublishes(c, d, e);
    } else {
      assert Agrees(d, id, Track(c, es, id));
      OthersAgree(c, es, d, e, id);
    }
    hide Next, Track, Agrees, Publish;
  }

  lemma {:induction false} TrackRun(c: Config, es: seq<Event>)
    requires Genuine(c, es)
    ensures AllAgree(c, es, Run(c, es))
  {
    if es != [] {
      var front, e := es[..|es| - 1], es[|es| - 1];
      TrackRun(c, front);
      assert es == front + [e];
      assert Run(c, es) == Next(c, Run(c, front), e) && GenuineEvent(Run(c, front), e);
      hide Next, Track, Agrees, Run, GenuineEvent, Genuine;
      forall id ensures Agrees(Run(c, es), id, Track(c, es, id)) {
        TrackStep(c, front, Run(c, front), e, id);
      }
    } else {
      forall id ensures Agrees(EMPTY, id, Track(c, es, id)) {}
    }
  }

  lemma NextPublishes(c: Config, d: Dispatcher, e: Event)
    requires e.Publishing?
    ensures Next(c, d, e) == Publish(c, d, e.symbol, e.visits).d
  {
  }

  /** In every reachable state the dispatcher holds exactly the connections that are there by the events,
      each with the symbols it asked for, open or closed, last heard and counted as they say. */
  lemma DispatcherRun(c: Config, es: seq<Event>, id: Id)
    requires Genuine(c, es)
    ensures var d, t := Run(c, es), Track(c, es, id);
            && (id in d.entries <==> t.Present?)
            && (t.Present? ==> d.entries[id] == Conn(t.s.subscribed, t.s.valid, t.s.heard, t.s.sent % 0x1_0000_0000_0000_0000))
  {
    TrackRun(c, es);
    assert Agrees(Run(c, es), id, Track(c, es, id));
    hide Run, Track, Genuine;
  }

  // The k-th event created the connection, and it has not been disposed of since.
  ghost predicate Created(es: seq<Event>, id: Id, k: nat) {
    k < |es| && es[k] == Creating(id) && forall n :: k < n < |es| ==> es[n] != Disposing(id)
  }

  lemma {:induction false} PresentIff(c: Config, es: seq<Event>, id: Id)
    ensures Track(c, es, id).Present? <==> exists k :: Created(es, id, k)
  {
    if es != [] {
      var n := |es| - 1;
      var front := es[..n];
      PresentIff(c, front, id);
      assert forall k :: 0 <= k < n ==> front[k] == es[k];
      forall k: nat | k < n ensures Created(es, id, k) <==> Created(front, id, k) && es[n] != Disposing(id) {}
      assert Created(es, id, n) <==> es[n] == Creating(id);
      forall k: nat | Created(es, id, k) ensures k <= n {}
      forall k: nat | Created(front, id, k) ensures k < n {}
      hide Created, Reached, AfterTurn;
    }
  }

  /** A connection is subscribed to a symbol exactly when it has asked for it, at a time when it was
      there, and has been neither disposed of nor created anew since. Later requests take nothing away. */
  lemma {:induction false} SubscribedIff(c: Config, es: seq<Event>, id: Id, symbol: Symbol)
    requires Track(c, es, id).Present?
    ensures symbol in Track(c, es, id).s.subscribed <==>
            exists j: nat :: AskedFor(es, id, symbol, j) && Track(c, es[..j], id).Present?
  {
    if es != [] {
      var n := |es| - 1;
      var front := es[..n];
      if Track(c, front, id).Present? { SubscribedIff(c, front, id, symbol); }
      forall j: nat | j < n
        ensures AskedFor(es, id, symbol, j) <==>
                AskedFor(front, id, symbol, j) && es[n] != Disposing(id) && es[n] != Creating(id)
        ensures es[..j] == front[..j]
      {
        AskedStep(es, id, symbol, j);
      }
      AskedLast(es, id, symbol);
      assert es[..n] == front;
      forall j: nat | AskedFor(es, id, symbol, j) ensures j <= n {}
      forall j: nat | AskedFor(front, id, symbol, j) ensures j < n {}
      hide AskedFor, Reached, AfterTurn;
      SubscribedStep(c, es, id, symbol);
      hide Track;
    }
  }

  lemma AskedStep(es: seq<Event>, id: Id, symbol: Symbol, j: nat)
    requires es != [] && j < |es| - 1
    ensures var n := |es| - 1;
            AskedFor(es, id, symbol, j) <==> AskedFor(es[..n], id, symbol, j) && es[n] != Disposing(id) && es[n] != Creating(id)
  {
    var n := |es| - 1;
    assert forall i :: 0 <= i < n ==> es[..n][i] == es[i];
  }

  lemma AskedLast(es: seq<Event>, id: Id, symbol: Symbol)
    requires es != []
    ensures var e := es[|es| - 1];
            AskedFor(es, id, symbol, |es| - 1) <==> e.Subscribing? && e.id == id && symbol in e.symbols
  {
  }

  // One event adds a symbol, starts over, or leaves the subscriptions alone.
  lemma SubscribedStep(c: Config, es: seq<Event>, id: Id, symbol: Symbol)
    requires es != [] && Track(c, es, id).Present?
    ensures var e, t := es[|es| - 1], Track(c, es[..|es| - 1], id);
            symbol in Track(c, es, id).s.subscribed <==>
            && e != Creating(id) && t.Present?
            && (symbol in t.s.subscribed || (e.Subscribing? && e.id == id && symbol in e.symbols))
    ensures var e, t := es[|es| - 1], Track(c, es[..|es| - 1], id); e != Disposing(id) && (t.Absent? ==> e == Creating(id))
  {
    hide Reached;
  }

  // The n-th event closes the connection: its reader does, it refuses a delta it wants, or it takes one
  // at a tick that is due when it has been silent for too long.
  predicate ClosesNow(c: Config, es: seq<Event>, id: Id, n: nat)
    requires n < |es|
  {
    match es[n]
    case Closing(k) => k == id
    case Publishing(symbol, visits) =>
      var t, i := Track(c, es[..n], id), TurnOf(visits, id);
      && AsksFor(t, symbol) && i < |visits| && Reached(c, es[..n], symbol, visits, i)
      && (visits[i].refused || DueAndSilent(c, t.s.sent, t.s.heard, visits[i].now))
    case _ => false
  }

  // The k-th event created the connection, and nothing since has removed or closed it.
  ghost predicate OpenSince(c: Config, es: seq<Event>, id: Id, k: nat) {
    && k < |es| && es[k] == Creating(id)
    && forall n :: k < n < |es| ==> es[n] != Disposing(id) && !ClosesNow(c, es, id, n)
  }

  lemma OpenStep(c: Config, es: seq<Event>, id: Id, k: nat)
    requires es != [] && k < |es| - 1
    ensures var n := |es| - 1;
            OpenSince(c, es, id, k) <==> OpenSince(c, es[..n], id, k) && es[n] != Disposing(id) && !ClosesNow(c, es, id, n)
  {
    var front := es[..|es| - 1];
    forall n | 0 <= n < |front| ensures front[n] == es[n] && ClosesNow(c, front, id, n) == ClosesNow(c, es, id, n) {
      assert front[..n] == es[..n];
    }
    hide ClosesNow;
  }

  /** A connection is open exactly when some event created it and none since has disposed of it or
      closed it. */
  lemma {:induction false} OpenIff(c: Config, es: seq<Event>, id: Id)
    ensures var t := Track(c, es, id); t.Present? && t.s.valid <==> exists k :: OpenSince(c, es, id, k)
  {
    if es != [] {
      var n := |es| - 1;
      var front := es[..n];
      OpenIff(c, front, id);
      forall k: nat | k < n
        ensures OpenSince(c, es, id, k) <==> OpenSince(c, front, id, k) && es[n] != Disposing(id) && !ClosesNow(c, es, id, n)
      {
        OpenStep(c, es, id, k);
      }
      assert OpenSince(c, es, id, n) <==> es[n] == Creating(id);
      forall k: nat | OpenSince(c, es, id, k) ensures k <= n {}
      forall k: nat | OpenSince(c, front, id, k) ensures k < n {}
      hide OpenSince, Reached, DueAndSilent;
      ValidStep(c, es, id);
      hide Track, ClosesNow;
    }
  }

  lemma ValidStep(c: Config, es: seq<Event>, id: Id)
    requires es != []
    ensures var n := |es| - 1;
            var before, after := Track(c, es[..n], id), Track(c, es, id);
            after.Present? && after.s.valid <==>
            es[n] == Creating(id) || (before.Present? && before.s.valid && es[n] != Disposing(id) && !ClosesNow(c, es, id, n))
  {
    hide Reached, DueAndSilent;
  }

  /** Who is handed a delta, after any run and by the events alone: those that have their turn before
      anybody who wants it refuses it, want it themselves, and do not refuse. */
  lemma HandedIff(c: Config, es: seq<Event>, symbol: Symbol, visits: Turns, id: Id)
    requires Genuine(c, es) && Walks(visits, Run(c, es).entries)
    ensures var i := TurnOf(visits, id);
            id in HandedBy(c, Run(c, es), Publishing(symbol, visits)) <==>
            && i < |visits| && AsksFor(Track(c, es, id), symbol)
            && Reached(c, es, symbol, visits, i) && !visits[i].refused
  {
    var d := Run(c, es);
    TrackRun(c, es);
    assert Agrees(d, id, Track(c, es, id));
    var i := TurnOf(visits, id);
    if i < |visits| {
      forall j | 0 <= j < |visits| ensures visits[j].key in d.entries { WalkKey(visits, d.entries, j); }
      PublishTurn(c, d, symbol, visits, i);
      ReachedSame(c, es, d, symbol, visits, i);
    } else {
      assert id !in d.entries;
      if id in HandedBy(c, d, Publishing(symbol, visits)) { HandedWanted(c, d, Publishing(symbol, visits), id); }
    }
    hide Publish, Run, Track, Genuine, Reached, Reach, Served;
  }

  /** A publish that returns true hands the delta to every open connection that has asked for its symbol. */
  lemma AskedHanded(c: Config, es: seq<Event>, symbol: Symbol, visits: Turns, id: Id, j: nat)
    requires Genuine(c, es) && Walks(visits, Run(c, es).entries) && Publish(c, Run(c, es), symbol, visits).ok
    requires AskedFor(es, id, symbol, j) && Track(c, es[..j], id).Present?
    requires id in Run(c, es).entries && Run(c, es).entries[id].valid
    ensures id in HandedBy(c, Run(c, es), Publishing(symbol, visits))
  {
    var d := Run(c, es);
    TrackRun(c, es);
    assert Agrees(d, id, Track(c, es, id));
    SubscribedIff(c, es, id, symbol);
    PublishOk(c, d, symbol, visits);
    var i := WalkIndex(visits, d.entries, id);
    forall k | 0 <= k < |visits| ensures visits[k].key in d.entries { WalkKey(visits, d.entries, k); }
    PublishTurn(c, d, symbol, visits, i);
    assert Wants(d, id, symbol);
    hide Publish, Run, Track, Genuine, Served, Walks, AskedFor;
  }

  lemma ClosedTurn(c: Config, es: seq<Event>, symbol: Symbol, visits: Turns, id: Id) returns (i: nat, s: Seat)
    requires Genuine(c, es) && Walks(visits, Run(c, es).entries)
    requires id in Run(c, es).entries && Run(c, es).entries[id].valid
    requires Down(Publish(c, Run(c, es), symbol, visits).d, id)
    ensures Track(c, es, id) == Present(s) && i < |visits| && visits[i].key == id
    ensures visits[i].refused || DueAndSilent(c, s.sent, s.heard, visits[i].now)
  {
    TrackRun(c, es);
    i := TurnOf(visits, id);
    TrackPublishes(c, es, symbol, visits, id);
    PublishAgrees(c, es, Run(c, es), symbol, visits, id);
    PublishOk(c, Run(c, es), symbol, visits);
    assert Agrees(Run(c, es), id, Track(c, es, id));
    hide Run, Track, Publish, Genuine, Reached, Walks, AllAgree, DueAndSilent, Wrap64;
    s := Track(c, es, id).s;
  }

  /** A publish closes a connection only if it refuses the delta, or takes it as a send whose number
      since the creation is a multiple of the check interval, any if that is 0, after a silence longer
      than the timeout. */
  lemma ClosedWhenDue(c: Config, es: seq<Event>, symbol: Symbol, visits: Turns, id: Id) returns (i: nat, s: Seat)
    requires Genuine(c, es) && Walks(visits, Run(c, es).entries)
    requires id in Run(c, es).entries && Run(c, es).entries[id].valid
    requires Down(Publish(c, Run(c, es), symbol, visits).d, id)
    ensures Track(c, es, id) == Present(s) && i < |visits| && visits[i].key == id
    ensures visits[i].refused || c.checkEvery == 0 || (s.sent + 1) % 0x1_0000_0000_0000_0000 % c.checkEvery == 0
    ensures visits[i].refused || (visits[i].now - s.heard) % 0x1_0000_0000_0000_0000 > c.timeout
  {
    i, s := ClosedTurn(c, es, symbol, visits, id);
    hide *;
    DueMeans(c, visits[i].refused, s.sent, s.heard, visits[i].now);
  }

  // ---------- the dispatcher as the program holds it ----------

  class DeltaDispatcher {
    const config: Config
    var connections: map<Id, Conn>
    var connectionsCount: U16

    function View(): Dispatcher
      reads this
    {
      Table(connections, connectionsCount)
    }

    constructor (config: Config)
      ensures this.config == config && View() == EMPTY
    {
      this.config := config;
      connections, connectionsCount := map[], 0;
    }

    method CreateConnection(id: Id)
      modifies this
      ensures View() == Create(old(View()), id)
    {
      connections := connections[id := Conn({}, true, 0, 0)];
      connectionsCount := |connections| % 0x1_0000;
    }

    method DisposeConnection(id: Id)
      modifies this
      ensures View() == Dispose(old(View()), id)
    {
      connections := connections - {id};
      connectionsCount := |connections| % 0x1_0000;
    }

    method AddSubscriptions(id: Id, symbols: seq<Symbol>)
      modifies this
      ensures View() == Subscribe(old(View()), id, set s | s in symbols)
    {
      if id in connections {
        var subscribed := connections[id].subscribed;
        for i := 0 to |symbols|
          invariant subscribed == connections[id].subscribed + set s | s in symbols[..i]
        {
          subscribed := subscribed + {symbols[i]};
        }
        assert symbols[..|symbols|] == symbols;
        connections := connections[id := connections[id].(subscribed := subscribed)];
      }
    }

    method CloseConnection(id: Id)
      modifies this
      ensures View() == Close(old(View()), id)
    {
      if id in connections {
        connections := connections[id := connections[id].(valid := false)];
      }
    }

    method GetSubscribedConnections(visits: Turns, symbol: Symbol) returns (r: Turns)
      ensures r == Select(View(), visits, symbol)
    {
      r := [];
      for i := 0 to |visits|
        invariant r == Select(View(), visits[..i], symbol)
      {
        assert visits[..i + 1][..i] == visits[..i];
        var id := visits[i].key;
        if id in connections && connections[id].valid && symbol in connections[id].subscribed {
          r := r + [visits[i]];
        }
      }
      assert visits[..|visits|] == visits;
    }

    // send_message to each of them, and the heartbeat check of those that took it.
    method HandOver(list: Turns) returns (ok: bool, ghost handed: seq<Id>)
      requires Known(View(), list)
      modifies this
      ensures Walk(ok, View(), handed) == Hand(config, old(View()), list)
    {
      ghost var start := View();
      handed := [];
      hide Ticked;
      for n := 0 to |list|
        invariant connections.Keys == start.entries.Keys
        invariant Walk(true, View(), handed) == Hand(config, start, list[..n])
      {
        var v := list[n];
        assert list[..n + 1][..n] == list[..n];
        if v.refused {
          CloseConnection(v.key);
          HandStuck(config, start, list, n + 1);
          return false, handed;
        }
        connections := connections[v.key := Ticked(config, connections[v.key], v.now)];
        handed := handed + [v.key];
      }
      assert list[..|list|] == list;
      ok := true;
    }

    method PublishDelta(symbol: Symbol, visits: Turns) returns (ok: bool, ghost handed: seq<Id>)
      modifies this
      ensures Walk(ok, View(), handed) == Publish(config, old(View()), symbol, visits)
    {
      hide Hand, Wants;
      var list := GetSubscribedConnections(visits, symbol);
      SelectKnown(View(), visits, symbol);
      ok, handed := HandOver(list);
    }
  }

  // After a refused send nothing more happens.
  lemma {:induction false} HandStuck(c: Config, d: Dispatcher, list: Turns, n: nat)
    requires n <= |list| && !Hand(c, d, list[..n]).ok
    ensures Hand(c, d, list) == Hand(c, d, list[..n])
    decreases |list|
  {
    if n < |list| {
      var m := |list| - 1;
      assert list[..m][..n] == list[..n];
      HandStuck(c, d, list[..m], n);
    } else {
      assert list[..n] == list;
    }
  }
}
