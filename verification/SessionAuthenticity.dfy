/** Session and authenticator together: a payload channel means that some control
    frame carried the peer's confirmation tag for exactly this session's view. */
module SessionAuthenticity {
  import opened Basics
  import opened SessionState
  import opened SessionGate
  import opened SessionSafety
  import K = KeySchedule
  import A = Authenticator
  import H = Handshake

  /** The authenticator call a step makes, if it makes one. */
  function CallOf(cfg: Config, sh: Shared, pc: Pc, env: Env): Option<H.Call>
  {
    if (pc.SendBind? || pc.MsgBind?) && sh.control.Some? && !sh.authBound
       && sh.localFingerprint != [] && sh.remoteFingerprint != [] then
      Some(H.BindCall(A.Material(cfg.sessionId, cfg.mode, sh.localFingerprint, sh.remoteFingerprint), env.draw))
    else if pc.SendStart? then Some(H.StartCall)
    else if pc.MsgStep? then Some(H.StepCall(pc.message))
    else None
  }

  function AuthAfter(cfg: Config, sh: Shared, c: Option<H.Call>): A.Auth
  {
    if c.None? then sh.auth else H.Apply(cfg.suite, sh.auth, c.value).auth
  }

  lemma BindRegionAuth(cfg: Config, sh: Shared, pc: Pc, env: Env)
    requires pc.SendBind? || pc.MsgBind?
    ensures BindRegion(cfg, sh, env.draw).sh.auth == AuthAfter(cfg, sh, CallOf(cfg, sh, pc, env))
  {
  }

  /** The session touches its authenticator through Bind, Start and Step only. */
  lemma StepAuth(cfg: Config, sh: Shared, t: nat, pc: Pc, env: Env)
    ensures StepOne(cfg, sh, t, pc, env).sh.auth == AuthAfter(cfg, sh, CallOf(cfg, sh, pc, env))
  {
    if pc.SendBind? {
      BindRegionAuth(cfg, sh, pc, env);
      var r := BindRegion(cfg, sh, env.draw);
      if r.outcome.Attached? {} else if r.outcome.NotReady? {} else {}
    } else if pc.MsgBind? {
      BindRegionAuth(cfg, sh, pc, env);
      var r := BindRegion(cfg, sh, env.draw);
      if r.outcome.Attached? {} else {}
    } else if pc.SendStart? {
      var r := A.Start(sh.auth);
      if r.hello.Ok? {} else {}
    } else if pc.MsgStep? {
      var r := A.Step(cfg.suite, sh.auth, pc.message);
      if r.result.err.Some? {} else {}
    } else {
      OtherAuth(cfg, sh, t, pc, env);
    }
  }

  lemma OtherAuth(cfg: Config, sh: Shared, t: nat, pc: Pc, env: Env)
    requires !pc.SendBind? && !pc.MsgBind? && !pc.SendStart? && !pc.MsgStep?
    ensures StepOne(cfg, sh, t, pc, env).sh.auth == sh.auth
  {
    if pc.Done? {
    } else if InSend(pc) {
      SendPlain(cfg, sh, t, pc, env);
    } else if InMsg(pc) {
      MsgPlain(cfg, sh, pc, env);
    } else if InPay(pc) {
      PayPlain(cfg, sh, pc, env);
    } else if InTeardown(pc) {
      TeardownPlain(sh, t, pc, env);
    } else {
      EnterPlain(sh, pc);
    }
  }

  lemma SendPlain(cfg: Config, sh: Shared, t: nat, pc: Pc, env: Env)
    requires InSend(pc) && !pc.SendBind? && !pc.SendStart?
    ensures StepSend(cfg, sh, t, pc, env).sh.auth == sh.auth
  {
  }

  lemma MsgPlain(cfg: Config, sh: Shared, pc: Pc, env: Env)
    requires InMsg(pc) && !pc.MsgBind? && !pc.MsgStep?
    ensures StepMsg(cfg, sh, pc, env).sh.auth == sh.auth
  {
  }

  lemma EnterPlain(sh: Shared, pc: Pc)
    requires pc.AttachControl? || pc.OpenPublish? || pc.LocalPublish? || pc.RemotePublish?
          || pc.EnterRead? || pc.EnterCheck? || pc.EnterMove? || pc.GuardCheck?
    ensures var r := StepEnter(sh, pc); r.sh.auth == sh.auth && MessageAt(r.pc).None?
  {
  }

  lemma PayPlain(cfg: Config, sh: Shared, pc: Pc, env: Env)
    requires InPay(pc)
    ensures var r := StepPay(cfg, sh, pc, env); r.sh.auth == sh.auth && MessageAt(r.pc).None?
  {
  }

  lemma TeardownPlain(sh: Shared, t: nat, pc: Pc, env: Env)
    requires InTeardown(pc)
    ensures var r := StepTeardown(sh, t, pc, env); r.sh.auth == sh.auth && MessageAt(r.pc).None?
  {
  }

  /** The message an activity is working on. */
  function MessageAt(pc: Pc): Option<A.Message>
  {
    match pc
    case MsgCheck(d) => d
    case MsgBind(m) => Some(m)
    case MsgStep(m) => Some(m)
    case _ => None
  }

  ghost predicate Received(events: seq<Event>, m: A.Message)
  {
    Spawn(ControlMessage(Some(m))) in events
  }

  /** Some received control frame carried the tag `a` expects. */
  ghost predicate TagSeen(events: seq<Event>, a: A.Auth)
    requires a.keys.Some?
  {
    exists m: A.Message :: Received(events, m) && m.confirmation == A.Decoded(H.ExpectedTag(a))
  }

  ghost predicate Authentic(cfg: Config, s: Sys, events: seq<Event>)
  {
    && H.Coherent(cfg.suite, s.sh.auth)
    && (s.sh.auth.state.Succeeded? ==> TagSeen(events, s.sh.auth))
    && (forall t :: 0 <= t < |s.pcs| && MessageAt(s.pcs[t]).Some? ==> Received(events, MessageAt(s.pcs[t]).value))
  }

  lemma StepMessage(cfg: Config, sh: Shared, t: nat, pc: Pc, env: Env)
    ensures var r := StepOne(cfg, sh, t, pc, env);
            MessageAt(r.pc).Some? ==> MessageAt(r.pc) == MessageAt(pc)
  {
    if pc.Done? {
    } else if InSend(pc) {
      SendHasNoMessage(cfg, sh, t, pc, env);
    } else if InMsg(pc) {
      MsgKeepsMessage(cfg, sh, pc, env);
    } else if InPay(pc) {
      PayPlain(cfg, sh, pc, env);
    } else if InTeardown(pc) {
      TeardownPlain(sh, t, pc, env);
    } else {
      EnterPlain(sh, pc);
    }
  }

  lemma MsgKeepsMessage(cfg: Config, sh: Shared, pc: Pc, env: Env)
    requires InMsg(pc)
    ensures var r := StepMsg(cfg, sh, pc, env);
            MessageAt(r.pc).Some? ==> MessageAt(r.pc) == MessageAt(pc)
  {
    if pc.MsgBind? {
      var r := BindRegion(cfg, sh, env.draw);
      if r.outcome.Attached? {} else {}
    } else if pc.MsgStep? {
      var r := A.Step(cfg.suite, sh.auth, pc.message);
      if r.result.err.Some? {} else {}
    }
  }

  lemma SendHasNoMessage(cfg: Config, sh: Shared, t: nat, pc: Pc, env: Env)
    requires InSend(pc)
    ensures MessageAt(StepSend(cfg, sh, t, pc, env).pc).None?
  {
    if pc.SendBind? {
      var r := BindRegion(cfg, sh, env.draw);
      if r.outcome.Attached? {} else if r.outcome.NotReady? {} else {}
    } else if pc.SendStart? {
      var r := A.Start(sh.auth);
      if r.hello.Ok? {} else {}
    }
  }

  lemma Grow(events: seq<Event>, e: Event, a: A.Auth)
    requires a.keys.Some? && TagSeen(events, a)
    ensures TagSeen(events + [e], a)
  {
    var m: A.Message :| Received(events, m) && m.confirmation == A.Decoded(H.ExpectedTag(a));
    assert Received(events + [e], m);
  }

  /** What one step does to the authenticator's claims. */
  lemma StepAuthentic(cfg: Config, s: Sys, events: seq<Event>, t: nat, env: Env)
    requires Authentic(cfg, s, events) && t < |s.pcs|
    ensures var a := StepOne(cfg, s.sh, t, s.pcs[t], env).sh.auth;
            && H.Coherent(cfg.suite, a)
            && (a.state.Succeeded? ==> TagSeen(events, a))
  {
    var pc := s.pcs[t];
    StepAuth(cfg, s.sh, t, pc, env);
    var c := CallOf(cfg, s.sh, pc, env);
    if c.Some? {
      H.ApplyKeepsCoherent(cfg.suite, s.sh.auth, c.value);
      var a := H.Apply(cfg.suite, s.sh.auth, c.value).auth;
      if a.state.Succeeded? {
        if s.sh.auth.state.Succeeded? {
          H.StepsRaiseRank(cfg.suite, s.sh.auth, c.value);
        } else {
          H.SucceedingCall(cfg.suite, s.sh.auth, c.value);
          assert Received(events, c.value.frame);
        }
      }
    }
  }

  lemma NextAuthentic(cfg: Config, s: Sys, events: seq<Event>, e: Event)
    requires Authentic(cfg, s, events)
    ensures Authentic(cfg, Next(cfg, s, e), events + [e])
  {
    var s' := Next(cfg, s, e);
    if e.Run? && e.t < |s.pcs| {
      StepAuthentic(cfg, s, events, e.t, e.env);
      StepMessage(cfg, s.sh, e.t, s.pcs[e.t], e.env);
    }
    if s'.sh.auth.state.Succeeded? {
      Grow(events, e, s'.sh.auth);
    }
    forall t | 0 <= t < |s'.pcs| && MessageAt(s'.pcs[t]).Some?
      ensures Received(events + [e], MessageAt(s'.pcs[t]).value)
    {
      if e.Spawn? && t == |s.pcs| {
        assert (events + [e])[|events|] == e;
      } else {
        assert Received(events, MessageAt(s'.pcs[t]).value);
      }
    }
  }

  lemma {:induction false} EveryRunAuthentic(cfg: Config, auth: A.Auth, events: seq<Event>)
    requires Fresh(auth)
    ensures Authentic(cfg, RunAll(cfg, auth, events), events)
  {
    if events != [] {
      var n := |events| - 1;
      EveryRunAuthentic(cfg, auth, events[..n]);
      NextAuthentic(cfg, RunAll(cfg, auth, events[..n]), events[..n], events[n]);
      assert events[..n] + [events[n]] == events;
    }
  }

  /** If any payload channel was handed over, the authenticator holds keys for a
      view of this session, and a control frame was received that carried the peer
      role's tag for that very view. */
  lemma PayloadMeansVerifiedPeer(cfg: Config, auth: A.Auth, events: seq<Event>) returns (m: A.Message)
    requires Fresh(auth)
    requires RunAll(cfg, auth, events).sh.handed > 0
    ensures var a := RunAll(cfg, auth, events).sh.auth;
            && A.ViewOf(cfg.suite, a).Some?
            && A.SessionKey(a) == Ok(K.Derive(A.ViewOf(cfg.suite, a).value).sessionKey)
            && Received(events, m)
            && m.confirmation
               == A.Decoded(K.Tag(A.ViewOf(cfg.suite, a).value, if a.initiator then K.Responder else K.Initiator))
  {
    PayloadOnlyAfterAuth(cfg, auth, events);
    EveryRunAuthentic(cfg, auth, events);
    var a := RunAll(cfg, auth, events).sh.auth;
    H.TagsOfView(cfg.suite, a);
    m :| Received(events, m) && m.confirmation == A.Decoded(H.ExpectedTag(a));
  }
}
