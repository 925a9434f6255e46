/** The broker's job in its simplest form: one map from rendezvous key to slot. */
module BrokerSlots {
  import opened Basics

  datatype Mode = Connect | Expose

  datatype Peer = Peer(id: string, mode: Mode, key: string, createdAt: int)

  datatype Session = Session(id: string, key: string, first: Peer, second: Peer, createdAt: int)
  {
    predicate Has(p: Peer) { first.id == p.id || second.id == p.id }

    function Other(p: Peer): Peer { if first.id == p.id then second else first }
  }

  datatype Slot = Waiting(peer: Peer) | Paired(session: Session)
  {
    predicate Has(p: Peer)
    {
      if Waiting? then peer.id == p.id else session.Has(p)
    }

    predicate Holds(p: Peer)
    {
      if Waiting? then peer == p else session.first == p || session.second == p
    }
  }

  type Slots = map<string, Slot>

  datatype PairError = Busy | AlreadyWaiting | SameMode | NoRandomId

  datatype Notice =
    | PairedNotice(to: Peer, sessionId: string, initiator: bool, peerMode: Mode)
    | LeftNotice(to: Peer, sessionId: string)
    | SignalNotice(to: Peer, sessionId: string)

  // ---------- operations ----------

  datatype PairResult = PairResult(slots: Slots, err: Option<PairError>, notices: seq<Notice>)

  function PairedNotices(s: Session): seq<Notice>
  {
    [PairedNotice(s.first, s.id, s.first.mode.Connect?, s.second.mode),
     PairedNotice(s.second, s.id, s.second.mode.Connect?, s.first.mode)]
  }

  /** `drawn` is the random session id, or None if the source failed. */
  function TryPair(slots: Slots, p: Peer, drawn: Option<string>, now: int): PairResult
  {
    if p.key !in slots then PairResult(slots[p.key := Waiting(p)], None, [])
    else
      match slots[p.key]
      case Paired(_) => PairResult(slots, Some(Busy), [])
      case Waiting(w) =>
        if w.id == p.id then PairResult(slots, Some(AlreadyWaiting), [])
        else if w.mode == p.mode then PairResult(slots, Some(SameMode), [])
        else if drawn.None? then PairResult(slots, Some(NoRandomId), [])
        else
          var s := Session(drawn.value, p.key, w, p, now);
          PairResult(slots[p.key := Paired(s)], None, PairedNotices(s))
  }

  /** The session a peer is in: look at its own slot only. */
  function SessionOf(slots: Slots, p: Peer): Option<Session>
  {
    if p.key in slots && slots[p.key].Paired? && slots[p.key].session.Has(p) then Some(slots[p.key].session) else None
  }

  datatype LeaveResult = LeaveResult(slots: Slots, notices: seq<Notice>)

  function Leave(slots: Slots, p: Peer): LeaveResult
  {
    if p.key in slots && slots[p.key].Has(p) then
      LeaveResult(slots - {p.key},
                  if slots[p.key].Waiting? then []
                  else [LeftNotice(slots[p.key].session.Other(p), slots[p.key].session.id)])
    else LeaveResult(slots, [])
  }

  datatype Ttl = Ttl(waiter: int, session: int)

  predicate Stale(s: Slot, ttl: Ttl, now: int)
  {
    if s.Waiting? then s.peer.createdAt < now - ttl.waiter else s.session.createdAt < now - ttl.session
  }

  function Evict(slots: Slots, ttl: Ttl, now: int): Slots
  {
    map k | k in slots && !Stale(slots[k], ttl, now) :: slots[k]
  }

  // ---------- invariant ----------

  ghost predicate SlotOk(k: string, s: Slot)
  {
    if s.Waiting? then s.peer.key == k
    else
      && s.session.key == k && s.session.first.key == k && s.session.second.key == k
      && s.session.first.mode != s.session.second.mode
  }

  /** Random peer ids name one peer each. */
  ghost predicate IdsName(peers: set<Peer>)
  {
    forall p, q :: p in peers && q in peers && p.id == q.id ==> p == q
  }

  predicate SameSession(s: Slot, t: Slot)
  {
    s.Paired? && t.Paired? && s.session.id == t.session.id
  }

  ghost predicate Valid(slots: Slots, peers: set<Peer>)
  {
    && (forall k :: k in slots ==> SlotOk(k, slots[k]))
    && (forall k, p :: k in slots && slots[k].Holds(p) ==> p in peers)
    && (forall k, j :: k in slots && j in slots && SameSession(slots[k], slots[j]) ==> k == j)
  }

  /** A peer occupies at most one slot, its own. */
  lemma OneSlotEach(slots: Slots, peers: set<Peer>, p: Peer, k: string)
    requires Valid(slots, peers) && IdsName(peers) && p in peers && k in slots
    ensures slots[k].Has(p) <==> slots[k].Holds(p)
    ensures slots[k].Has(p) ==> k == p.key
    ensures slots[k].Paired? ==> slots[k].session.first != slots[k].session.second
  {
    if slots[k].Paired? {
      assert slots[k].Holds(slots[k].session.first) && slots[k].Holds(slots[k].session.second);
    } else {
      assert slots[k].Holds(slots[k].peer);
    }
  }

  /** Partnership is mutual: the partner's partner is the peer itself, in the same
      session, with the opposite mode and the same key. */
  lemma PartnersAreMutual(slots: Slots, peers: set<Peer>, p: Peer)
    requires Valid(slots, peers) && IdsName(peers) && p in peers && SessionOf(slots, p).Some?
    ensures var s := SessionOf(slots, p).value;
            var q := s.Other(p);
            && q in peers && q != p && q.key == p.key && q.mode != p.mode
            && SessionOf(slots, q) == Some(s) && s.Other(q) == p
  {
    OneSlotEach(slots, peers, p, p.key);
    var s := slots[p.key].session;
    assert slots[p.key].Holds(s.first) && slots[p.key].Holds(s.second);
  }

  ghost predicate UnusedId(slots: Slots, id: string)
  {
    forall k :: k in slots && slots[k].Paired? ==> slots[k].session.id != id
  }

  lemma PairKeepsValid(slots: Slots, peers: set<Peer>, p: Peer, drawn: Option<string>, now: int)
    requires Valid(slots, peers) && p in peers && (drawn.Some? ==> UnusedId(slots, drawn.value))
    ensures Valid(TryPair(slots, p, drawn, now).slots, peers)
  {
    var r := TryPair(slots, p, drawn, now);
    if p.key in slots && slots[p.key].Waiting? {
      assert slots[p.key].Holds(slots[p.key].peer);
    }
  }

  lemma LeaveKeepsValid(slots: Slots, peers: set<Peer>, p: Peer)
    requires Valid(slots, peers)
    ensures Valid(Leave(slots, p).slots, peers)
  {
  }

  lemma EvictKeepsValid(slots: Slots, peers: set<Peer>, ttl: Ttl, now: int)
    requires Valid(slots, peers)
    ensures Valid(Evict(slots, ttl, now), peers)
  {
  }

  // ---------- what each operation achieves ----------

  /** Registering under a free key waits; the second peer is paired exactly if it is
      another peer of the other mode and a session id could be drawn; every refusal
      changes nothing. */
  lemma PairsExactly(slots: Slots, p: Peer, drawn: Option<string>, now: int)
    ensures var r := TryPair(slots, p, drawn, now);
            && (forall k :: k != p.key ==> (k in r.slots <==> k in slots) && (k in slots ==> r.slots[k] == slots[k]))
            && (p.key !in slots ==> r.err.None? && r.notices == [] && p.key in r.slots && r.slots[p.key] == Waiting(p))
            && (p.key in slots ==>
                  && (r.err.None? <==>
                        && slots[p.key].Waiting? && slots[p.key].peer.id != p.id
                        && slots[p.key].peer.mode != p.mode && drawn.Some?)
                  && (r.err.Some? ==> r.slots == slots && r.notices == [])
                  && (r.err.None? ==>
                        && p.key in r.slots && r.slots[p.key].Paired?
                        && var s := r.slots[p.key].session;
                           && s.id == drawn.value && s.key == p.key && s.createdAt == now
                           && s.first == slots[p.key].peer && s.second == p && |r.notices| == 2))
            && (r.err == Some(Busy) <==> p.key in slots && slots[p.key].Paired?)
  {
  }

  /** The session a peer is in is found, wherever it is. */
  lemma SessionOfExactly(slots: Slots, peers: set<Peer>, p: Peer, s: Session)
    requires Valid(slots, peers) && IdsName(peers) && p in peers
    ensures SessionOf(slots, p) == Some(s) <==>
              exists k :: k in slots && slots[k] == Paired(s) && (s.first == p || s.second == p)
  {
    if SessionOf(slots, p) == Some(s) {
      OneSlotEach(slots, peers, p, p.key);
      assert slots[p.key].Holds(p);
    }
    if k :| k in slots && slots[k] == Paired(s) && (s.first == p || s.second == p) {
      OneSlotEach(slots, peers, p, k);
    }
  }

  /** Leaving frees the peer's own slot and no other. The partner, and nobody else,
      is told, exactly if the peer was in a session. */
  lemma LeaveFrees(slots: Slots, peers: set<Peer>, p: Peer)
    requires Valid(slots, peers) && IdsName(peers) && p in peers
    ensures var r := Leave(slots, p);
            && !Present(r.slots, p)
            && (forall k :: k != p.key ==> (k in r.slots <==> k in slots) && (k in slots ==> r.slots[k] == slots[k]))
            && (Present(slots, p) ==> p.key !in r.slots)
            && (!Present(slots, p) ==> r.slots == slots)
            && r.notices == match SessionOf(slots, p)
                            case None => []
                            case Some(s) => [LeftNotice(if s.first == p then s.second else s.first, s.id)]
  {
    if p.key in slots {
      OneSlotEach(slots, peers, p, p.key);
    }
  }

  /** A sweep keeps exactly the slots that are at most as old as their limit. */
  lemma EvictExactly(slots: Slots, ttl: Ttl, now: int, k: string)
    ensures k in Evict(slots, ttl, now) <==>
              k in slots && (if slots[k].Waiting? then now - slots[k].peer.createdAt <= ttl.waiter
                             else now - slots[k].session.createdAt <= ttl.session)
    ensures k in Evict(slots, ttl, now) ==> Evict(slots, ttl, now)[k] == slots[k]
  {
  }

  ghost predicate Present(slots: Slots, p: Peer)
  {
    p.key in slots && slots[p.key].Has(p)
  }

  // ---------- runs ----------

  datatype Event =
    | Register(peer: Peer, drawn: Option<string>, now: int)
    | Unregister(peer: Peer)
    | Relay(peer: Peer)
    | Sweep(ttl: Ttl, now: int)

  datatype World = World(slots: Slots, log: seq<Notice>)

  function Next(w: World, e: Event): World
  {
    match e
    case Register(p, drawn, now) =>
      var r := TryPair(w.slots, p, drawn, now);
      World(r.slots, w.log + r.notices)
    case Unregister(p) =>
      var r := Leave(w.slots, p);
      World(r.slots, w.log + r.notices)
    case Relay(p) =>
      var s := SessionOf(w.slots, p);
      if s.Some? then w.(log := w.log + [SignalNotice(s.value.Other(p), s.value.id)]) else w
    case Sweep(ttl, now) => w.(slots := Evict(w.slots, ttl, now))
  }

  function Run(events: seq<Event>): World
  {
    if events == [] then World(map[], []) else Next(Run(events[..|events| - 1]), events[|events| - 1])
  }

  /** All peers come from `peers`, and no two registrations draw the same session id. */
  ghost predicate Plausible(events: seq<Event>, peers: set<Peer>)
  {
    && IdsName(peers)
    && (forall i :: 0 <= i < |events| && !events[i].Sweep? ==> events[i].peer in peers)
    && (forall i, j :: 0 <= i < j < |events| && events[i].Register? && events[j].Register? && events[i].drawn.Some?
                       ==> events[i].drawn != events[j].drawn)
  }

  /** Session ids that some registration drew. */
  ghost predicate Drawn(events: seq<Event>, id: string)
  {
    exists i :: 0 <= i < |events| && events[i].Register? && events[i].drawn == Some(id)
  }

  function CountLeft(log: seq<Notice>, id: string): nat
  {
    if log == [] then 0
    else
      var n := log[|log| - 1];
      CountLeft(log[..|log| - 1], id) + (if n.LeftNotice? && n.sessionId == id then 1 else 0)
  }

  function CountPaired(log: seq<Notice>, id: string, initiator: bool): nat
  {
    if log == [] then 0
    else
      var n := log[|log| - 1];
      CountPaired(log[..|log| - 1], id, initiator)
      + (if n.PairedNotice? && n.sessionId == id && n.initiator == initiator then 1 else 0)
  }

  ghost predicate Live(slots: Slots, id: string)
  {
    exists k :: k in slots && slots[k].Paired? && slots[k].session.id == id
  }

  /** Notices of a session are explained by its life: none before it is drawn, one
      Paired per role from then on, no Left while it lives. */
  ghost predicate LogOk(w: World, events: seq<Event>, id: string)
  {
    && (Live(w.slots, id) ==> Drawn(events, id) && CountLeft(w.log, id) == 0 && CountPaired(w.log, id, true) == 1)
    && (!Drawn(events, id) ==> CountLeft(w.log, id) == 0 && CountPaired(w.log, id, true) == 0)
    && CountLeft(w.log, id) <= CountPaired(w.log, id, true) <= 1
    && CountPaired(w.log, id, true) == CountPaired(w.log, id, false)
  }

  lemma CountSnoc(log: seq<Notice>, n: Notice, id: string)
    ensures CountLeft(log + [n], id) == CountLeft(log, id) + (if n.LeftNotice? && n.sessionId == id then 1 else 0)
    ensures forall b :: CountPaired(log + [n], id, b)
                     == CountPaired(log, id, b)
                        + (if n.PairedNotice? && n.sessionId == id && n.initiator == b then 1 else 0)
  {
    assert (log + [n])[..|log|] == log;
  }

  lemma DrawnGrows(events: seq<Event>, e: Event, id: string)
    ensures Drawn(events + [e], id) <==> Drawn(events, id) || (e.Register? && e.drawn == Some(id))
  {
    if Drawn(events, id) {
      var i :| 0 <= i < |events| && events[i].Register? && events[i].drawn == Some(id);
      assert (events + [e])[i] == events[i];
    }
    if e.Register? && e.drawn == Some(id) {
      assert (events + [e])[|events|] == e;
    }
  }

  lemma LastDrawIsNew(events: seq<Event>, e: Event, peers: set<Peer>)
    requires Plausible(events + [e], peers) && e.Register? && e.drawn.Some?
    ensures !Drawn(events, e.drawn.value)
  {
    var h := events + [e];
    assert h[|events|] == e;
    assert forall i :: 0 <= i < |events| ==> h[i] == events[i];
  }

  /** Waiting peers do not matter to the life of a session. */
  lemma LiveAgrees(a: Slots, b: Slots, id: string)
    requires forall k :: k in a && a[k].Paired? ==> k in b && b[k] == a[k]
    requires forall k :: k in b && b[k].Paired? ==> k in a && a[k] == b[k]
    ensures Live(a, id) <==> Live(b, id)
  {
    if Live(a, id) {
      var k :| k in a && a[k].Paired? && a[k].session.id == id;
      assert k in b && b[k].Paired?;
    }
    if Live(b, id) {
      var k :| k in b && b[k].Paired? && b[k].session.id == id;
      assert k in a && a[k].Paired?;
    }
  }

  /** A registration that notifies nobody leaves the sessions as they are. */
  lemma QuietRegister(slots: Slots, p: Peer, drawn: Option<string>, now: int, id: string)
    requires TryPair(slots, p, drawn, now).notices == []
    ensures Live(TryPair(slots, p, drawn, now).slots, id) <==> Live(slots, id)
  {
    if p.key !in slots {
      LiveAgrees(slots, slots[p.key := Waiting(p)], id);
    } else {
      assert TryPair(slots, p, drawn, now).slots == slots;
    }
  }

  lemma RegisterKeepsLog(w: World, events: seq<Event>, e: Event, id: string, peers: set<Peer>)
    requires Valid(w.slots, peers) && LogOk(w, events, id) && Plausible(events + [e], peers) && e.Register?
    ensures LogOk(Next(w, e), events + [e], id)
  {
    var r := TryPair(w.slots, e.peer, e.drawn, e.now);
    if r.notices == [] {
      DrawnGrows(events, e, id);
      QuietRegister(w.slots, e.peer, e.drawn, e.now, id);
      assert Next(w, e).log == w.log;
    } else {
      PairingKeepsLog(w, events, e, id, peers);
    }
  }

  lemma PairedCounts(log: seq<Notice>, s: Session, id: string)
    requires s.first.mode != s.second.mode
    ensures CountLeft(log + PairedNotices(s), id) == CountLeft(log, id)
    ensures forall b :: CountPaired(log + PairedNotices(s), id, b)
                     == CountPaired(log, id, b) + (if id == s.id then 1 else 0)
  {
    var n := PairedNotices(s);
    assert log + n == (log + [n[0]]) + [n[1]];
    CountSnoc(log, n[0], id);
    CountSnoc(log + [n[0]], n[1], id);
  }

  lemma PairingKeepsLog(w: World, events: seq<Event>, e: Event, id: string, peers: set<Peer>)
    requires Valid(w.slots, peers) && LogOk(w, events, id) && Plausible(events + [e], peers) && e.Register?
    requires TryPair(w.slots, e.peer, e.drawn, e.now).notices != []
    ensures LogOk(Next(w, e), events + [e], id)
  {
    DrawnGrows(events, e, id);
    LastDrawIsNew(events, e, peers);
    var p, slots' := e.peer, TryPair(w.slots, e.peer, e.drawn, e.now).slots;
    var s := slots'[p.key].session;
    PairedCounts(w.log, s, id);
    if id == s.id {
      assert p.key in slots' && slots'[p.key].Paired?;
    } else {
      OthersStayLive(w.slots, p.key, s, id);
    }
  }

  /** Pairing the waiter at `key` does not touch any other session. */
  lemma OthersStayLive(slots: Slots, key: string, s: Session, id: string)
    requires key in slots && slots[key].Waiting? && id != s.id
    ensures Live(slots[key := Paired(s)], id) <==> Live(slots, id)
  {
    var slots' := slots[key := Paired(s)];
    if Live(slots, id) {
      var k :| k in slots && slots[k].Paired? && slots[k].session.id == id;
      assert k in slots' && slots'[k] == slots[k];
    }
    if Live(slots', id) {
      var k :| k in slots' && slots'[k].Paired? && slots'[k].session.id == id;
      assert k in slots && slots'[k] == slots[k];
    }
  }

  lemma LeaveKeepsLog(w: World, events: seq<Event>, e: Event, id: string, peers: set<Peer>)
    requires Valid(w.slots, peers) && LogOk(w, events, id) && e.Unregister?
    ensures LogOk(Next(w, e), events + [e], id)
  {
    DrawnGrows(events, e, id);
    var p, r := e.peer, Leave(w.slots, e.peer);
    if r.notices == [] {
      assert w.log + [] == w.log;
    } else {
      CountSnoc(w.log, r.notices[0], id);
      assert w.slots[p.key].Paired? && p.key in w.slots;
      if id == w.slots[p.key].session.id {
        assert Live(w.slots, id);
        assert !Live(r.slots, id) by {
          if Live(r.slots, id) {
            var k :| k in r.slots && r.slots[k].Paired? && r.slots[k].session.id == id;
            assert SameSession(w.slots[k], w.slots[p.key]);
          }
        }
      }
    }
    if Live(r.slots, id) {
      var k :| k in r.slots && r.slots[k].Paired? && r.slots[k].session.id == id;
      assert k in w.slots && w.slots[k] == r.slots[k];
    }
  }

  lemma RelayKeepsLog(w: World, events: seq<Event>, e: Event, id: string)
    requires LogOk(w, events, id) && e.Relay?
    ensures LogOk(Next(w, e), events + [e], id)
  {
    DrawnGrows(events, e, id);
    var s := SessionOf(w.slots, e.peer);
    if s.Some? {
      CountSnoc(w.log, SignalNotice(s.value.Other(e.peer), s.value.id), id);
    }
  }

  lemma SweepKeepsLog(w: World, events: seq<Event>, e: Event, id: string)
    requires LogOk(w, events, id) && e.Sweep?
    ensures LogOk(Next(w, e), events + [e], id)
  {
    DrawnGrows(events, e, id);
    var kept := Evict(w.slots, e.ttl, e.now);
    if Live(kept, id) {
      var k :| k in kept && kept[k].Paired? && kept[k].session.id == id;
      assert k in w.slots && w.slots[k].Paired?;
    }
  }

  lemma NextKeepsLog(w: World, events: seq<Event>, e: Event, id: string, peers: set<Peer>)
    requires Valid(w.slots, peers) && LogOk(w, events, id) && Plausible(events + [e], peers)
    ensures LogOk(Next(w, e), events + [e], id)
  {
    match e
    case Register(_, _, _) => RegisterKeepsLog(w, events, e, id, peers);
    case Unregister(_) => LeaveKeepsLog(w, events, e, id, peers);
    case Relay(_) => RelayKeepsLog(w, events, e, id);
    case Sweep(_, _) => SweepKeepsLog(w, events, e, id);
  }

  lemma NextKeepsValid(w: World, events: seq<Event>, e: Event, peers: set<Peer>)
    requires Valid(w.slots, peers) && Plausible(events + [e], peers)
    requires forall id :: LogOk(w, events, id)
    ensures Valid(Next(w, e).slots, peers)
  {
    assert (events + [e])[|events|] == e;
    match e
    case Register(p, drawn, now) =>
      if drawn.Some? {
        LastDrawIsNew(events, e, peers);
        assert LogOk(w, events, drawn.value);
        assert UnusedId(w.slots, drawn.value) by {
          assert forall k :: k in w.slots && w.slots[k].Paired? ==> Live(w.slots, w.slots[k].session.id);
        }
      }
      PairKeepsValid(w.slots, peers, p, drawn, now);
    case Unregister(p) => LeaveKeepsValid(w.slots, peers, p);
    case Relay(_) =>
    case Sweep(ttl, now) => EvictKeepsValid(w.slots, peers, ttl, now);
  }

  /** In every run: keys, modes and ids of the slots agree, each session sends one
      Paired notice to its connect peer and one to its expose peer, and at most one
      Left notice, never while it lives. */
  lemma {:induction false} EveryRunOk(events: seq<Event>, peers: set<Peer>)
    requires Plausible(events, peers)
    ensures Valid(Run(events).slots, peers)
    ensures forall id :: LogOk(Run(events), events, id)
    ensures forall i :: 0 <= i < |Run(events).log| ==> NoticeOk(Run(events).log[i])
  {
    if events != [] {
      var n := |events| - 1;
      var h, e := events[..n], events[n];
      PlausibleFront(events, peers);
      EveryRunOk(h, peers);
      NextKeepsValid(Run(h), h, e, peers);
      forall id
        ensures LogOk(Run(events), events, id)
      {
        NextKeepsLog(Run(h), h, e, id, peers);
      }
    }
  }

  // ---------- whom the notices reach ----------

  /** The session that a registration makes, if it makes one. */
  function SessionMade(slots: Slots, e: Event): Option<Session>
  {
    if e.Register? && TryPair(slots, e.peer, e.drawn, e.now).notices != [] then
      Some(Session(e.drawn.value, e.peer.key, slots[e.peer.key].peer, e.peer, e.now))
    else None
  }

  /** All sessions ever made, living or not. */
  ghost function Sessions(events: seq<Event>): set<Session>
  {
    if events == [] then {}
    else
      var h, e := events[..|events| - 1], events[|events| - 1];
      var made := SessionMade(Run(h).slots, e);
      Sessions(h) + (if made.Some? then {made.value} else {})
  }

  /** The notice is about `s`, goes to one of its two peers, and tells a paired peer
      its own role and the other's mode. */
  predicate Concerns(n: Notice, s: Session)
  {
    && n.sessionId == s.id && (n.to == s.first || n.to == s.second)
    && (n.PairedNotice? ==>
          n.initiator == n.to.mode.Connect? && n.peerMode == (if n.to == s.first then s.second else s.first).mode)
  }

  ghost predicate Explains(ss: set<Session>, n: Notice)
  {
    exists s :: s in ss && Concerns(n, s)
  }

  ghost predicate LogExplained(log: seq<Notice>, ss: set<Session>)
  {
    forall i :: 0 <= i < |log| ==> Explains(ss, log[i])
  }

  ghost predicate SlotsKnown(slots: Slots, ss: set<Session>)
  {
    forall k :: k in slots && slots[k].Paired? ==> slots[k].session in ss
  }

  /** One connect and one expose peer, each told about the pairing. */
  ghost predicate Announced(log: seq<Notice>, s: Session)
  {
    && s.first.mode != s.second.mode
    && (exists i :: 0 <= i < |log| && log[i] == PairedNotices(s)[0])
    && (exists i :: 0 <= i < |log| && log[i] == PairedNotices(s)[1])
  }

  ghost predicate AllAnnounced(log: seq<Notice>, ss: set<Session>)
  {
    forall s :: s in ss ==> Announced(log, s)
  }

  lemma LogGrows(log: seq<Notice>, n: Notice, ss: set<Session>, s: Session)
    requires LogExplained(log, ss) && s in ss && Concerns(n, s)
    ensures LogExplained(log + [n], ss)
  {
    assert Explains(ss, n);
  }

  lemma MoreSessions(log: seq<Notice>, ss: set<Session>, s: Session)
    requires LogExplained(log, ss)
    ensures LogExplained(log, ss + {s})
  {
    forall i | 0 <= i < |log|
      ensures Explains(ss + {s}, log[i])
    {
      assert Explains(ss, log[i]);
      var t :| t in ss && Concerns(log[i], t);
      assert t in ss + {s};
    }
  }

  ghost predicate Explained(w: World, ss: set<Session>)
  {
    LogExplained(w.log, ss) && SlotsKnown(w.slots, ss)
  }

  /** The two notices of a new session. */
  lemma PairingLog(log: seq<Notice>, ss: set<Session>, s: Session)
    requires LogExplained(log, ss)
    ensures LogExplained(log + PairedNotices(s), ss + {s})
  {
    var n := PairedNotices(s);
    MoreSessions(log, ss, s);
    LogGrows(log, n[0], ss + {s}, s);
    LogGrows(log + [n[0]], n[1], ss + {s}, s);
    assert log + n == log + [n[0]] + [n[1]];
  }

  lemma PairingExplained(w: World, ss: set<Session>, e: Event)
    requires Explained(w, ss) && SessionMade(w.slots, e).Some?
    ensures Explained(Next(w, e), ss + {SessionMade(w.slots, e).value})
  {
    PairingLog(w.log, ss, SessionMade(w.slots, e).value);
  }

  lemma NextExplained(w: World, ss: set<Session>, e: Event)
    requires Explained(w, ss) && SessionMade(w.slots, e).None?
    ensures Explained(Next(w, e), ss)
  {
    assert w.log + [] == w.log;
    match e
    case Register(p, drawn, now) =>
      if p.key in w.slots {} else {}
    case Unregister(p) =>
      if Leave(w.slots, p).notices != [] {
        var s := w.slots[p.key].session;
        LogGrows(w.log, LeftNotice(s.Other(p), s.id), ss, s);
      }
    case Relay(p) =>
      if SessionOf(w.slots, p).Some? {
        var s := SessionOf(w.slots, p).value;
        LogGrows(w.log, SignalNotice(s.Other(p), s.id), ss, s);
      }
    case Sweep(_, _) =>
  }

  /** Session ids are drawn, and name one session each. */
  ghost predicate SessionsNamed(events: seq<Event>, ss: set<Session>)
  {
    && (forall s :: s in ss ==> Drawn(events, s.id))
    && (forall s, t :: s in ss && t in ss && s.id == t.id ==> s == t)
  }

  lemma NamedGrows(h: seq<Event>, e: Event, slots: Slots, ss: set<Session>, peers: set<Peer>)
    requires SessionsNamed(h, ss) && Plausible(h + [e], peers)
    ensures var made := SessionMade(slots, e);
            SessionsNamed(h + [e], ss + (if made.Some? then {made.value} else {}))
  {
    forall s | s in ss
      ensures Drawn(h + [e], s.id)
    {
      DrawnGrows(h, e, s.id);
    }
    if SessionMade(slots, e).Some? {
      LastDrawIsNew(h, e, peers);
      DrawnGrows(h, e, e.drawn.value);
    }
  }

  lemma PlausibleFront(events: seq<Event>, peers: set<Peer>)
    requires Plausible(events, peers) && events != []
    ensures var n := |events| - 1;
            events[..n] + [events[n]] == events && Plausible(events[..n], peers)
  {
    var n := |events| - 1;
    assert forall i :: 0 <= i < n ==> events[..n][i] == events[i];
  }

  /** In every run, every notice goes to one of the two peers of a session made in
      that run under that id, and an id names one session. */
  lemma {:induction false} NoticesReachOwnPeers(events: seq<Event>, peers: set<Peer>)
    requires Plausible(events, peers)
    ensures Explained(Run(events), Sessions(events)) && SessionsNamed(events, Sessions(events))
  {
    if events != [] {
      var n := |events| - 1;
      var h, e := events[..n], events[n];
      PlausibleFront(events, peers);
      NoticesReachOwnPeers(h, peers);
      NamedGrows(h, e, Run(h).slots, Sessions(h), peers);
      if SessionMade(Run(h).slots, e).Some? {
        PairingExplained(Run(h), Sessions(h), e);
      } else {
        NextExplained(Run(h), Sessions(h), e);
      }
    }
  }

  lemma LogOnlyGrows(w: World, e: Event)
    ensures w.log <= Next(w, e).log
  {
  }

  /** Conversely, every session has one connect and one expose peer, and both were
      told about the pairing. */
  lemma {:induction false} SessionsAnnounced(events: seq<Event>, peers: set<Peer>)
    requires Plausible(events, peers)
    ensures AllAnnounced(Run(events).log, Sessions(events))
  {
    if events != [] {
      var n := |events| - 1;
      var h, e := events[..n], events[n];
      PlausibleFront(events, peers);
      SessionsAnnounced(h, peers);
      LogOnlyGrows(Run(h), e);
      forall s | s in Sessions(events)
        ensures Announced(Run(events).log, s)
      {
        if s in Sessions(h) {
          AnnouncedStays(Run(h).log, Run(events).log, s);
        } else {
          NewlyAnnounced(Run(h), e);
        }
      }
    }
  }

  lemma AnnouncedStays(log: seq<Notice>, more: seq<Notice>, s: Session)
    requires Announced(log, s) && log <= more
    ensures Announced(more, s)
  {
    var i :| 0 <= i < |log| && log[i] == PairedNotices(s)[0];
    var j :| 0 <= j < |log| && log[j] == PairedNotices(s)[1];
    assert more[i] == log[i] && more[j] == log[j];
  }

  lemma NewlyAnnounced(w: World, e: Event)
    requires SessionMade(w.slots, e).Some?
    ensures Announced(Next(w, e).log, SessionMade(w.slots, e).value)
  {
    var s, log := SessionMade(w.slots, e).value, Next(w, e).log;
    assert log == w.log + PairedNotices(s);
    assert log[|w.log|] == PairedNotices(s)[0] && log[|w.log| + 1] == PairedNotices(s)[1];
  }

  /** Initiator is set exactly for the connect peer, which is told the other mode. */
  predicate NoticeOk(n: Notice)
  {
    n.PairedNotice? ==> n.initiator == n.to.mode.Connect? && n.peerMode != n.to.mode
  }

  /** A relayed signal goes to the sender's partner and to no one else. */
  lemma RelayReachesPartner(events: seq<Event>, peers: set<Peer>, p: Peer)
    requires Plausible(events, peers) && p in peers
    ensures var w := Run(events);
            var s := SessionOf(w.slots, p);
            if s.None? then Next(w, Relay(p)) == w
            else
              && Next(w, Relay(p)).log == w.log + [SignalNotice(s.value.Other(p), s.value.id)]
              && SessionOf(w.slots, s.value.Other(p)) == s && s.value.Other(s.value.Other(p)) == p
              && s.value.Other(p).mode != p.mode
  {
    EveryRunOk(events, peers);
    if SessionOf(Run(events).slots, p).Some? {
      PartnersAreMutual(Run(events).slots, peers, p);
    }
  }

  /** In every run: after a peer unregisters it holds no slot, its key is free for
      others, all other keys are untouched, and its partner, if it had one, gets one
      Left notice. */
  lemma UnregisterFrees(events: seq<Event>, peers: set<Peer>, p: Peer)
    requires Plausible(events, peers) && p in peers
    ensures var w, w' := Run(events), Next(Run(events), Unregister(p));
            && !Present(w'.slots, p) && (Present(w.slots, p) ==> p.key !in w'.slots)
            && (forall k :: k != p.key ==>
                  (k in w'.slots <==> k in w.slots) && (k in w.slots ==> w'.slots[k] == w.slots[k]))
            && match SessionOf(w.slots, p)
               case None => w'.log == w.log
               case Some(s) => w'.log == w.log + [LeftNotice(s.Other(p), s.id)]
  {
    EveryRunOk(events, peers);
    LeaveFrees(Run(events).slots, peers, p);
    assert Run(events).log + [] == Run(events).log;
  }

  /** In every run: a peer that registers while another one of the other mode waits
      under its key is paired with it, both are told, and signals of each reach the
      other. */
  lemma OppositesMeet(events: seq<Event>, peers: set<Peer>, p: Peer, q: Peer, id: string, now: int)
    requires Plausible(events + [Register(q, Some(id), now)], peers) && p in peers
    requires var w := Run(events); p.key in w.slots && w.slots[p.key] == Waiting(p)
    requires q.key == p.key && q.id != p.id && q.mode != p.mode
    ensures var w, w' := Run(events), Next(Run(events), Register(q, Some(id), now));
            && SessionOf(w'.slots, p).Some? && SessionOf(w'.slots, p) == SessionOf(w'.slots, q)
            && w'.log == w.log + [PairedNotice(p, id, p.mode.Connect?, q.mode),
                                  PairedNotice(q, id, q.mode.Connect?, p.mode)]
            && Next(w', Relay(p)).log == w'.log + [SignalNotice(q, id)]
            && Next(w', Relay(q)).log == w'.log + [SignalNotice(p, id)]
  {
  }

  lemma AbsentStays(w: World, e: Event, peers: set<Peer>, p: Peer)
    requires Valid(w.slots, peers) && IdsName(peers) && p in peers && !Present(w.slots, p)
    requires e.Register? ==> e.peer in peers && e.peer != p
    ensures !Present(Next(w, e).slots, p)
  {
    if e.Register? && e.peer.key == p.key && p.key in w.slots {
      OneSlotEach(w.slots, peers, p, p.key);
    }
  }

  /** A peer that was evicted, replaced, refused or has left can be unregistered at
      any later time without effect, even if its key is in use again. */
  lemma {:induction false} LateUnregisterHarmless(events: seq<Event>, later: seq<Event>, peers: set<Peer>, p: Peer)
    requires Plausible(events + later, peers) && p in peers
    requires !Present(Run(events).slots, p)
    requires forall i :: 0 <= i < |later| && later[i].Register? ==> later[i].peer != p
    ensures !Present(Run(events + later).slots, p)
    ensures Next(Run(events + later), Unregister(p)) == Run(events + later)
    decreases |later|
  {
    if later == [] {
      assert events + later == events;
    } else {
      var n := |later| - 1;
      var h, e := events + later[..n], later[n];
      assert events + later == h + [e];
      assert Plausible(h, peers) by {
        assert forall i :: 0 <= i < |h| ==> h[i] == (events + later)[i];
      }
      LateUnregisterHarmless(events, later[..n], peers, p);
      EveryRunOk(h, peers);
      assert (events + later)[|h|] == e && (events + later)[..|h|] == h;
      AbsentStays(Run(h), e, peers, p);
    }
    var w := Run(events + later);
    assert w.log + [] == w.log;
  }
}
