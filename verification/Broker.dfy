/** The broker as implemented: three maps under one lock, proved to behave as the
    single map of slots. */
module Broker {
  import opened Basics
  import opened BrokerSlots

  datatype Maps = Maps(waiting: map<string, Peer>, activeKey: map<string, string>, sessions: map<string, Session>)

  /** activeKey and sessions are inverse to each other, and no key both waits and
      is active. */
  ghost predicate Linked(m: Maps)
  {
    && (forall k :: k in m.waiting ==> m.waiting[k].key == k && k !in m.activeKey)
    && (forall k :: k in m.activeKey ==> m.activeKey[k] in m.sessions && m.sessions[m.activeKey[k]].key == k)
    && (forall id :: id in m.sessions ==>
          m.sessions[id].id == id && m.sessions[id].key in m.activeKey && m.activeKey[m.sessions[id].key] == id)
  }

  ghost function View(m: Maps): Slots
    requires Linked(m)
  {
    map k | k in m.waiting.Keys + m.activeKey.Keys ::
      if k in m.waiting then Waiting(m.waiting[k]) else Paired(m.sessions[m.activeKey[k]])
  }

  /** Every session is visible in the slot of its key. */
  lemma SessionInView(m: Maps, id: string)
    requires Linked(m) && id in m.sessions
    ensures m.sessions[id].key in View(m) && View(m)[m.sessions[id].key] == Paired(m.sessions[id])
  {
  }

  /** Scanning all sessions finds what the peer's own slot shows: a hit is the only
      possible hit. */
  lemma HitIsOwnSlot(m: Maps, peers: set<Peer>, p: Peer, id: string)
    requires Linked(m) && Valid(View(m), peers) && IdsName(peers) && p in peers
    requires id in m.sessions && m.sessions[id].Has(p)
    ensures SessionOf(View(m), p) == Some(m.sessions[id])
  {
    SessionInView(m, id);
    OneSlotEach(View(m), peers, p, m.sessions[id].key);
  }

  lemma MissIsNoSession(m: Maps, p: Peer)
    requires Linked(m) && forall id :: id in m.sessions ==> !m.sessions[id].Has(p)
    ensures SessionOf(View(m), p).None?
  {
  }

  lemma PairingLinked(m: Maps, key: string, s: Session)
    requires Linked(m) && key in m.waiting && s.id !in m.sessions && s.key == key
    ensures var m' := Maps(m.waiting - {key}, m.activeKey[key := s.id], m.sessions[s.id := s]);
            Linked(m') && View(m') == View(m)[key := Paired(s)]
  {
  }

  lemma WaitingLinked(m: Maps, p: Peer)
    requires Linked(m) && p.key !in m.waiting && p.key !in m.activeKey
    ensures var m' := m.(waiting := m.waiting[p.key := p]);
            Linked(m') && View(m') == View(m)[p.key := Waiting(p)]
  {
  }

  lemma RemoveWaiterLinked(m: Maps, key: string)
    requires Linked(m) && key in m.waiting
    ensures var m' := m.(waiting := m.waiting - {key});
            Linked(m') && View(m') == View(m) - {key}
  {
  }

  lemma RemoveSessionLinked(m: Maps, id: string)
    requires Linked(m) && id in m.sessions
    ensures var m' := m.(activeKey := m.activeKey - {m.sessions[id].key}, sessions := m.sessions - {id});
            Linked(m') && View(m') == View(m) - {m.sessions[id].key}
  {
  }

  /** A peer in a session leaves by dropping it. */
  lemma LeavesSession(m: Maps, p: Peer)
    requires Linked(m) && SessionOf(View(m), p).Some?
    ensures var s := SessionOf(View(m), p).value;
            Leave(View(m), p) == LeaveResult(View(m) - {s.key}, [LeftNotice(s.Other(p), s.id)])
  {
  }

  /** A peer in no session that does not wait either leaves nothing. */
  lemma WaiterStays(m: Maps, p: Peer)
    requires Linked(m) && SessionOf(View(m), p).None? && !(p.key in m.waiting && m.waiting[p.key].id == p.id)
    ensures Leave(View(m), p) == LeaveResult(View(m), [])
  {
  }

  class Registry {
    var waiting: map<string, Peer>
    var activeKey: map<string, string>
    var sessions: map<string, Session>
    var ttl: Ttl

    ghost function Contents(): Maps
      reads this
    {
      Maps(waiting, activeKey, sessions)
    }

    constructor (ttl: Ttl)
      ensures this.ttl == ttl && Linked(Contents()) && View(Contents()) == map[]
    {
      waiting, activeKey, sessions := map[], map[], map[];
      this.ttl := ttl;
    }

    method TryPair(p: Peer, drawn: Option<string>, now: int) returns (err: Option<PairError>, notices: seq<Notice>)
      requires Linked(Contents()) && (drawn.Some? ==> drawn.value !in sessions)
      modifies this`waiting, this`activeKey, this`sessions
      ensures Linked(Contents())
      ensures PairResult(View(Contents()), err, notices) == BrokerSlots.TryPair(old(View(Contents())), p, drawn, now)
    {
      if p.key in activeKey {
        return Some(Busy), [];
      }
      if p.key !in waiting {
        WaitingLinked(Contents(), p);
        waiting := waiting[p.key := p];
        return None, [];
      }
      var w := waiting[p.key];
      if w.id == p.id {
        return Some(AlreadyWaiting), [];
      }
      if w.mode == p.mode {
        return Some(SameMode), [];
      }
      if drawn.None? {
        return Some(NoRandomId), [];
      }
      var s := Session(drawn.value, p.key, w, p, now);
      PairingLinked(Contents(), p.key, s);
      waiting := waiting - {p.key};
      activeKey := activeKey[p.key := s.id];
      sessions := sessions[s.id := s];
      var initiatorForWaiting := w.mode.Connect?;
      var initiatorForPeer := p.mode.Connect?;
      return None, [PairedNotice(w, s.id, initiatorForWaiting, p.mode),
                    PairedNotice(p, s.id, initiatorForPeer, w.mode)];
    }

    /** Looks at the sessions in any order. */
    method FindSessionPeer(from: Peer, ghost peers: set<Peer>) returns (target: Option<Peer>, sessionId: string)
      requires Linked(Contents()) && Valid(View(Contents()), peers) && IdsName(peers) && from in peers
      ensures match SessionOf(View(Contents()), from)
              case None => target.None?
              case Some(s) => target == Some(s.Other(from)) && sessionId == s.id
                              && sessionId in sessions && sessions[sessionId] == s
    {
      var todo := sessions.Keys;
      while todo != {}
        invariant todo <= sessions.Keys
        invariant forall id :: id in sessions && id !in todo ==> !sessions[id].Has(from)
        decreases |todo|
      {
        var id :| id in todo;
        todo := todo - {id};
        var s := sessions[id];
        if s.Has(from) {
          HitIsOwnSlot(Contents(), peers, from, id);
          if from.id == s.first.id {
            return Some(s.second), id;
          }
          return Some(s.first), id;
        }
      }
      MissIsNoSession(Contents(), from);
      return None, "";
    }

    method DropSession(id: string)
      requires Linked(Contents()) && id in sessions
      modifies this`activeKey, this`sessions
      ensures Linked(Contents()) && sessions == old(sessions) - {id}
      ensures View(Contents()) == old(View(Contents())) - {old(sessions)[id].key}
    {
      RemoveSessionLinked(Contents(), id);
      var s := sessions[id];
      sessions := sessions - {id};
      activeKey := activeKey - {s.key};
    }

    method UnregisterPeer(p: Peer, ghost peers: set<Peer>) returns (notices: seq<Notice>)
      requires Linked(Contents()) && Valid(View(Contents()), peers) && IdsName(peers) && p in peers
      modifies this`waiting, this`activeKey, this`sessions
      ensures Linked(Contents())
      ensures LeaveResult(View(Contents()), notices) == BrokerSlots.Leave(old(View(Contents())), p)
    {
      if p.key in waiting && waiting[p.key].id == p.id {
        RemoveWaiterLinked(Contents(), p.key);
        waiting := waiting - {p.key};
        return [];
      }
      var target, sessionId := FindSessionPeer(p, peers);
      if target.None? {
        WaiterStays(Contents(), p);
        return [];
      }
      LeavesSession(Contents(), p);
      DropSession(sessionId);
      return [LeftNotice(target.value, sessionId)];
    }

    method RelaySignal(from: Peer, ghost peers: set<Peer>) returns (notices: seq<Notice>)
      requires Linked(Contents()) && Valid(View(Contents()), peers) && IdsName(peers) && from in peers
      ensures match SessionOf(View(Contents()), from)
              case None => notices == []
              case Some(s) => notices == [SignalNotice(s.Other(from), s.id)]
    {
      var target, sessionId := FindSessionPeer(from, peers);
      if target.None? {
        return [];
      }
      return [SignalNotice(target.value, sessionId)];
    }

    /** Deletes while iterating, in any order. */
    method CollectStaleWaiters(cutoff: int) returns (evicted: seq<Peer>)
      requires Linked(Contents())
      modifies this`waiting
      ensures waiting == (map k | k in old(waiting) && old(waiting)[k].createdAt >= cutoff :: old(waiting)[k])
      ensures forall p :: p in evicted <==> (p.key in old(waiting) && old(waiting)[p.key] == p && p.createdAt < cutoff)
      ensures NoDuplicates(evicted)
    {
      var todo := waiting.Keys;
      evicted := [];
      while todo != {}
        invariant WaitersSwept(old(waiting), waiting, todo, cutoff, evicted)
        decreases |todo|
      {
        var k :| k in todo;
        var p := waiting[k];
        if p.createdAt < cutoff {
          WaiterDrops(old(waiting), waiting, todo, cutoff, evicted, k);
          waiting := waiting - {k};
          evicted := evicted + [p];
        }
        todo := todo - {k};
      }
    }

    method CollectStaleSessions(cutoff: int) returns (evicted: seq<Session>)
      requires Linked(Contents())
      modifies this`activeKey, this`sessions
      ensures Linked(Contents())
      ensures sessions == (map id | id in old(sessions) && old(sessions)[id].createdAt >= cutoff :: old(sessions)[id])
      ensures forall s :: s in evicted <==> (s.id in old(sessions) && old(sessions)[s.id] == s && s.createdAt < cutoff)
      ensures NoDuplicates(evicted)
    {
      var todo := sessions.Keys;
      evicted := [];
      while todo != {}
        invariant Linked(Contents())
        invariant Swept(old(sessions), sessions, todo, cutoff, evicted)
        decreases |todo|
      {
        var id :| id in todo;
        var s := sessions[id];
        if s.createdAt < cutoff {
          SweepDrops(old(sessions), sessions, todo, cutoff, evicted, id);
          DropSession(id);
          evicted := evicted + [s];
        }
        todo := todo - {id};
      }
    }

    /** Exactly the slots older than their TTL go, and they are what is returned. */
    method CollectStale(now: int) returns (waiters: seq<Peer>, evicted: seq<Session>)
      requires Linked(Contents())
      modifies this`waiting, this`activeKey, this`sessions
      ensures Linked(Contents())
      ensures View(Contents()) == Evict(old(View(Contents())), ttl, now)
      ensures forall p :: p in waiters <==>
                (p.key in old(View(Contents())) && old(View(Contents()))[p.key] == Waiting(p)
                 && Stale(Waiting(p), ttl, now))
      ensures forall s :: s in evicted <==>
                (s.key in old(View(Contents())) && old(View(Contents()))[s.key] == Paired(s)
                 && Stale(Paired(s), ttl, now))
      ensures NoDuplicates(waiters) && NoDuplicates(evicted)
    {
      ghost var before := Contents();
      waiters := CollectStaleWaiters(now - ttl.waiter);
      evicted := CollectStaleSessions(now - ttl.session);
      EvictedView(before, Contents(), ttl, now);
      StaleSlots(before, ttl, now, waiters, evicted);
    }
  }

  ghost predicate WaitersSwept(
    before: map<string, Peer>, m: map<string, Peer>, todo: set<string>, cutoff: int, evicted: seq<Peer>)
  {
    && todo <= m.Keys <= before.Keys
    && (forall k :: k in before ==> before[k].key == k)
    && (forall k :: k in m ==> m[k] == before[k] && (k !in todo ==> m[k].createdAt >= cutoff))
    && (forall k :: k in before && k !in m ==> before[k].createdAt < cutoff)
    && (forall p :: p in evicted <==> (p.key in before && p.key !in m && before[p.key] == p))
    && NoDuplicates(evicted)
  }

  lemma WaiterDrops(
    before: map<string, Peer>, m: map<string, Peer>, todo: set<string>, cutoff: int, evicted: seq<Peer>, k: string)
    requires WaitersSwept(before, m, todo, cutoff, evicted) && k in todo && m[k].createdAt < cutoff
    ensures WaitersSwept(before, m - {k}, todo - {k}, cutoff, evicted + [m[k]])
  {
    assert m[k] !in evicted;
  }

  /** Halfway through the sweep: what is not in `todo` has been looked at. */
  ghost predicate Swept(
    before: map<string, Session>, m: map<string, Session>, todo: set<string>, cutoff: int, evicted: seq<Session>)
  {
    && todo <= m.Keys <= before.Keys
    && (forall id :: id in before ==> before[id].id == id)
    && (forall id :: id in m ==> m[id] == before[id] && (id !in todo ==> m[id].createdAt >= cutoff))
    && (forall id :: id in before && id !in m ==> before[id].createdAt < cutoff)
    && (forall s :: s in evicted <==> (s.id in before && s.id !in m && before[s.id] == s))
    && NoDuplicates(evicted)
  }

  lemma SweepDrops(
    before: map<string, Session>, m: map<string, Session>, todo: set<string>, cutoff: int, evicted: seq<Session>,
    id: string)
    requires Swept(before, m, todo, cutoff, evicted) && id in todo && m[id].createdAt < cutoff
    ensures Swept(before, m - {id}, todo - {id}, cutoff, evicted + [m[id]])
  {
    assert m[id] !in evicted;
  }

  lemma SlotsOfPeersAndSessions(m: Maps)
    requires Linked(m)
    ensures forall p: Peer :: (p.key in View(m) && View(m)[p.key] == Waiting(p))
              <==> (p.key in m.waiting && m.waiting[p.key] == p)
    ensures forall s: Session :: (s.key in View(m) && View(m)[s.key] == Paired(s))
              <==> (s.id in m.sessions && m.sessions[s.id] == s)
  {
  }

  /** The sweep's lists, read off the maps, are the stale slots. */
  lemma StaleSlots(m: Maps, ttl: Ttl, now: int, waiters: seq<Peer>, evicted: seq<Session>)
    requires Linked(m)
    requires forall p :: p in waiters <==>
               (p.key in m.waiting && m.waiting[p.key] == p && p.createdAt < now - ttl.waiter)
    requires forall s :: s in evicted <==>
               (s.id in m.sessions && m.sessions[s.id] == s && s.createdAt < now - ttl.session)
    ensures forall p :: p in waiters <==>
              (p.key in View(m) && View(m)[p.key] == Waiting(p) && Stale(Waiting(p), ttl, now))
    ensures forall s :: s in evicted <==>
              (s.key in View(m) && View(m)[s.key] == Paired(s) && Stale(Paired(s), ttl, now))
  {
    SlotsOfPeersAndSessions(m);
  }

  ghost predicate NoDuplicates<T>(s: seq<T>)
  {
    forall i, j :: 0 <= i < j < |s| ==> s[i] != s[j]
  }

  lemma EvictedView(m: Maps, m': Maps, ttl: Ttl, now: int)
    requires Linked(m) && Linked(m')
    requires m'.waiting == map k | k in m.waiting && m.waiting[k].createdAt >= now - ttl.waiter :: m.waiting[k]
    requires m'.sessions == map id | id in m.sessions && m.sessions[id].createdAt >= now - ttl.session :: m.sessions[id]
    ensures View(m') == Evict(View(m), ttl, now)
  {
    var v, e := View(m'), Evict(View(m), ttl, now);
    forall k | k in v
      ensures k in e && v[k] == e[k]
    {
      if k in m'.activeKey {
        assert m'.sessions[m'.activeKey[k]] == m.sessions[m'.activeKey[k]];
      }
    }
    forall k | k in e
      ensures k in v
    {
      if k in m.activeKey {
        assert m.activeKey[k] in m'.sessions;
      }
    }
  }

  lemma NewIdUnused(m: Maps, h: seq<Event>, e: Event, peers: set<Peer>)
    requires Linked(m) && Plausible(h + [e], peers) && e.Register? && e.drawn.Some?
    requires View(m) == Run(h).slots && LogOk(Run(h), h, e.drawn.value)
    ensures e.drawn.value !in m.sessions
  {
    LastDrawIsNew(h, e, peers);
    if e.drawn.value in m.sessions {
      SessionInView(m, e.drawn.value);
    }
  }

  lemma PlausiblePrefix(events: seq<Event>, peers: set<Peer>, n: nat)
    requires Plausible(events, peers) && n <= |events|
    ensures Plausible(events[..n], peers)
  {
  }

  lemma ReadyToApply(events: seq<Event>, peers: set<Peer>, n: nat)
    requires Plausible(events, peers) && n < |events|
    ensures Plausible(events[..n] + [events[n]], peers) && Valid(Run(events[..n]).slots, peers)
    ensures forall id :: LogOk(Run(events[..n]), events[..n], id)
    ensures Run(events[..n + 1]) == Next(Run(events[..n]), events[n])
  {
    PlausiblePrefix(events, peers, n);
    PlausiblePrefix(events, peers, n + 1);
    assert events[..n + 1] == events[..n] + [events[n]];
    assert events[..n + 1][..n] == events[..n];
    EveryRunOk(events[..n], peers);
  }

  /** Every run of the three-map broker is a run of the one-map broker. */
  method Drive(events: seq<Event>, ghost peers: set<Peer>) returns (r: Registry, log: seq<Notice>)
    requires Plausible(events, peers)
    ensures Linked(r.Contents()) && View(r.Contents()) == Run(events).slots && log == Run(events).log
  {
    r := new Registry(Ttl(0, 0));
    log := [];
    var i := 0;
    while i < |events|
      invariant 0 <= i <= |events| && fresh(r)
      invariant Linked(r.Contents()) && View(r.Contents()) == Run(events[..i]).slots && log == Run(events[..i]).log
    {
      ReadyToApply(events, peers, i);
      var notices := Apply(r, events[i], events[..i], peers);
      log := log + notices;
      i := i + 1;
    }
    assert events[..i] == events;
  }

  method Apply(r: Registry, e: Event, ghost h: seq<Event>, ghost peers: set<Peer>) returns (notices: seq<Notice>)
    requires Linked(r.Contents()) && View(r.Contents()) == Run(h).slots && Valid(Run(h).slots, peers)
    requires Plausible(h + [e], peers) && forall id :: LogOk(Run(h), h, id)
    modifies r
    ensures Linked(r.Contents())
    ensures World(View(r.Contents()), Run(h).log + notices) == Next(Run(h), e)
  {
    assert (h + [e])[|h|] == e;
    match e
    case Register(p, drawn, now) =>
      if drawn.Some? {
        NewIdUnused(r.Contents(), h, e, peers);
      }
      var err;
      err, notices := r.TryPair(p, drawn, now);
    case Unregister(p) =>
      notices := r.UnregisterPeer(p, peers);
    case Relay(p) =>
      notices := r.RelaySignal(p, peers);
      assert notices == [] ==> Run(h).log + notices == Run(h).log;
    case Sweep(ttl, now) =>
      r.ttl := ttl;
      var waiters, evicted := r.CollectStale(now);
      notices := [];
      assert Run(h).log + [] == Run(h).log;
  }
}
