/** Invariants of every interleaving of a session's activities: the payload gate,
    the single hello and the single teardown. */
module SessionSafety {
  import opened Basics
  import opened SessionState
  import opened SessionGate
  import A = Authenticator

  // ---------- facts about the authenticator's calls ----------

  /** What the session relies on: the role follows the mode, and on the connect
      side nothing leaves INIT (except to FAILED) before hello was claimed. */
  ghost predicate AuthFits(connect: bool, started: bool, a: A.Auth)
  {
    && (a.bound ==> a.initiator == connect)
    && (!a.state.Init? ==> a.bound)
    && (connect ==> !a.state.SentAccept?)
    && (connect && !started ==> a.state.Init? || a.state.Failed?)
  }

  ghost predicate Kept(a: A.Auth, b: A.Auth)
  {
    a.state.Succeeded? ==> b.state.Succeeded?
  }

  lemma BindFits(su: A.Suite, a: A.Auth, m: A.Material, d: A.Draw, started: bool)
    requires AuthFits(m.mode.Connect?, started, a)
    ensures AuthFits(m.mode.Connect?, started, A.Bind(su, a, m, d).auth) && Kept(a, A.Bind(su, a, m, d).auth)
  {
    if !a.state.Init? || !A.ValidMaterial(m) {} else if a.scheme == A.SchemeCpaceV2 {} else {}
  }

  lemma StartFits(a: A.Auth, connect: bool)
    requires AuthFits(connect, true, a)
    ensures AuthFits(connect, true, A.Start(a).auth) && Kept(a, A.Start(a).auth)
  {
  }

  lemma StepFits(su: A.Suite, a: A.Auth, m: A.Message, connect: bool, started: bool)
    requires AuthFits(connect, started, a)
    ensures var r := A.Step(su, a, m);
            && AuthFits(connect, started, r.auth) && Kept(a, r.auth)
            && (r.result.done && r.result.err.None? ==> r.auth.state.Succeeded?)
  {
    if a.bound && !a.Terminal() && m.scheme == a.scheme {
      if a.initiator {
        if a.state.SentHello? && m.kind.Accept? {} else {}
      } else {
        if a.state.Init? {} else {}
      }
    }
  }

  // ---------- invariants ----------

  ghost predicate SharedInv(cfg: Config, sh: Shared)
  {
    && AuthFits(cfg.mode.Connect?, sh.authStarted, sh.auth)
    // gate
    && (sh.result.Success? ==> sh.auth.state.Succeeded?)
    && (sh.state.Authenticated? || sh.state.Streaming? ==> sh.auth.state.Succeeded?)
    && (sh.state.Streaming? || sh.handed > 0 ==> sh.result.Success?)
    // hello
    && (sh.authStarted <==> sh.claimer.Some?)
    && sh.hellos <= 1 && (!sh.authStarted ==> sh.hellos == 0)
    && (sh.state.AuthPending? || sh.state.Authenticated? || sh.state.Streaming? ==>
          sh.localFingerprint != [] && sh.remoteFingerprint != [])
    // teardown
    && sh.writes == (if sh.result.Pending? then 0 else 1)
    && (sh.result.Failure? ==> sh.failEntered || !sh.once.Unused?)
    && sh.closes <= 1 && (sh.once.Unused? ==> sh.closes == 0) && (sh.once.Finished? ==> sh.closes == 1)
    && (sh.closes > 0 ==> Teardown(sh.state))
  }

  /** What activity `t`, standing at `pc`, knows about the shared state. */
  ghost predicate PcInv(sh: Shared, t: nat, pc: Pc)
  {
    && ((pc.MsgReply? && pc.done) || pc.MsgMove? || pc.MsgFix? ==> sh.auth.state.Succeeded?)
    && (pc.PayCreate? || pc.PayMove? || pc.PayHand? ==> sh.result.Success?)
    && (pc.EnterCheck? || pc.EnterMove? || pc.SendCheckOpen? || pc.SendBind? ==>
          sh.localFingerprint != [] && sh.remoteFingerprint != [])
    && (pc.SendStart? || pc.SendHello? ==> sh.claimer == Some(t) && sh.hellos == 0)
    && (InOnce(pc) ==> sh.once == Running(t))
    && (BeforeClose(pc) ==> sh.closes == 0)
    && (AfterClose(pc) ==> sh.closes == 1)
    && (NeedsTeardown(pc) ==> Teardown(sh.state))
    && (pc.FailFix? || pc.FailEnter? ==> sh.failEntered)
  }

  ghost predicate SysInv(cfg: Config, s: Sys)
  {
    && SharedInv(cfg, s.sh)
    && (forall t :: 0 <= t < |s.pcs| ==> PcInv(s.sh, t, s.pcs[t]))
  }

  /** How the shared state may change in one step of `t`; this is all that other
      activities need to know. */
  ghost predicate Evolves(sh: Shared, sh': Shared, t: nat)
  {
    && Kept(sh.auth, sh'.auth)
    && (!sh.result.Pending? ==> sh'.result == sh.result)
    && (sh.localFingerprint != [] ==> sh'.localFingerprint != [])
    && (sh.remoteFingerprint != [] ==> sh'.remoteFingerprint != [])
    && (sh.controlOpen ==> sh'.controlOpen)
    && (sh.authStarted ==> sh'.authStarted)
    && (sh.claimer.Some? ==> sh'.claimer == sh.claimer)
    && (sh.claimer.Some? && sh.claimer != Some(t) ==> sh'.hellos == sh.hellos)
    && (sh.once.Running? && sh.once != Running(t) ==> sh'.once == sh.once && sh'.closes == sh.closes)
    && sh.hellos <= sh'.hellos && sh.closes <= sh'.closes && sh.handed <= sh'.handed
    && (Teardown(sh.state) ==> Teardown(sh'.state))
    && (sh.failEntered ==> sh'.failEntered)
  }

  lemma OthersKeep(sh: Shared, sh': Shared, t: nat, u: nat, pc: Pc)
    requires Evolves(sh, sh', t) && t != u && PcInv(sh, u, pc)
    ensures PcInv(sh', u, pc)
  {
  }

  // ---------- one step of one activity ----------

  ghost predicate StepGood(cfg: Config, sh: Shared, t: nat, r: Move)
  {
    SharedInv(cfg, r.sh) && PcInv(r.sh, t, r.pc) && Evolves(sh, r.sh, t)
  }

  lemma StayGood(cfg: Config, sh: Shared, t: nat, pc: Pc)
    requires SharedInv(cfg, sh) && PcInv(sh, t, pc)
    ensures StepGood(cfg, sh, t, Move(sh, pc))
  {
  }

  lemma FailGood(cfg: Config, sh: Shared, t: nat)
    requires SharedInv(cfg, sh)
    ensures StepGood(cfg, sh, t, ToFail(sh))
  {
  }

  lemma StateGood(cfg: Config, sh: Shared, t: nat, next: State, pc: Pc)
    requires SharedInv(cfg, sh) && Allowed(sh.state, next) && PcInv(sh.(state := next), t, pc)
    requires next.AuthPending? ==> sh.localFingerprint != [] && sh.remoteFingerprint != []
    requires next.Authenticated? ==> sh.auth.state.Succeeded?
    requires next.Streaming? ==> sh.result.Success?
    ensures StepGood(cfg, sh, t, Move(sh.(state := next), pc))
  {
  }

  lemma FixGood(cfg: Config, sh: Shared, t: nat, r: AuthResult, pc: Pc)
    requires SharedInv(cfg, sh) && !r.Pending? && (r.Success? ==> sh.auth.state.Succeeded?)
    requires r.Failure? ==> sh.failEntered || !sh.once.Unused?
    requires PcInv(Complete(sh, r), t, pc)
    ensures StepGood(cfg, sh, t, Move(Complete(sh, r), pc))
  {
    if sh.result.Pending? {} else {}
  }

  lemma OnceGood(cfg: Config, sh: Shared, t: nat, pc: Pc)
    requires SharedInv(cfg, sh) && sh.once.Unused? && (pc.FailCheck? || pc.CloseCheck?)
    ensures StepGood(cfg, sh, t, Move(sh.(once := Running(t)), pc))
  {
  }

  lemma OnceDoneGood(cfg: Config, sh: Shared, t: nat)
    requires SharedInv(cfg, sh) && sh.once == Running(t) && sh.closes == 1
    ensures StepGood(cfg, sh, t, Move(sh.(once := Finished), Done))
  {
  }

  lemma CloseGood(cfg: Config, sh: Shared, t: nat, pc: Pc)
    requires SharedInv(cfg, sh) && sh.once == Running(t) && sh.closes == 0 && Teardown(sh.state)
    requires pc.FailClosing? || pc.ClosePcWait?
    ensures StepGood(cfg, sh, t, Move(sh.(closes := sh.closes + 1), pc))
  {
  }

  lemma PublishGood(cfg: Config, sh: Shared, t: nat, pc: Pc)
    requires SharedInv(cfg, sh) && (pc.LocalPublish? || pc.RemotePublish?) && pc.fingerprint != []
    ensures StepGood(cfg, sh, t, StepEnter(sh, pc))
  {
    if pc.LocalPublish? {} else {}
  }

  lemma ControlGood(cfg: Config, sh: Shared, t: nat, dc: nat)
    requires SharedInv(cfg, sh)
    ensures StepGood(cfg, sh, t, Move(sh.(control := Some(dc)), Done))
    ensures StepGood(cfg, sh, t, Move(sh.(controlOpen := true), SendCheckState))
  {
  }

  lemma EnterGood(cfg: Config, sh: Shared, t: nat, pc: Pc)
    requires SharedInv(cfg, sh) && PcInv(sh, t, pc)
    requires pc.AttachControl? || pc.OpenPublish? || pc.LocalPublish? || pc.RemotePublish?
          || pc.EnterRead? || pc.EnterCheck? || pc.EnterMove? || pc.GuardCheck?
    ensures StepGood(cfg, sh, t, StepEnter(sh, pc))
  {
    var r := StepEnter(sh, pc);
    if r.pc.FailFix? {
      FailGood(cfg, sh, t);
    } else if pc.AttachControl? {
      ControlGood(cfg, sh, t, pc.channel);
    } else if pc.OpenPublish? {
      ControlGood(cfg, sh, t, 0);
    } else if pc.EnterMove? {
      StateGood(cfg, sh, t, AuthPending, SendCheckState);
    } else if (pc.LocalPublish? || pc.RemotePublish?) && pc.fingerprint != [] {
      PublishGood(cfg, sh, t, pc);
    } else {
      StayGood(cfg, sh, t, r.pc);
    }
  }

  lemma BindGood(cfg: Config, sh: Shared, t: nat, draw: A.Draw)
    requires SharedInv(cfg, sh)
    ensures var r := BindRegion(cfg, sh, draw);
            && SharedInv(cfg, r.sh) && Evolves(sh, r.sh, t)
            && (r.outcome.NotReady? ==> sh.localFingerprint == [] || sh.remoteFingerprint == [])
  {
    var m := A.Material(cfg.sessionId, cfg.mode, sh.localFingerprint, sh.remoteFingerprint);
    BindFits(cfg.suite, sh.auth, m, draw, sh.authStarted);
    var r := A.Bind(cfg.suite, sh.auth, m, draw);
    AfterBindGood(cfg, sh, t, r);
  }

  lemma AfterBindGood(cfg: Config, sh: Shared, t: nat, r: A.Bound)
    requires SharedInv(cfg, sh) && AuthFits(cfg.mode.Connect?, sh.authStarted, r.auth) && Kept(sh.auth, r.auth)
    ensures SharedInv(cfg, AfterBind(sh, r).sh) && Evolves(sh, AfterBind(sh, r).sh, t)
  {
    if r.err.Some? {} else {}
  }

  lemma AfterSendBindGood(cfg: Config, sh: Shared, t: nat, r: BindMove)
    requires SharedInv(cfg, r.sh) && Evolves(sh, r.sh, t)
    ensures StepGood(cfg, sh, t, AfterSendBind(r))
  {
    if r.outcome.Attached? {} else if r.outcome.NotReady? {} else {}
  }

  lemma AfterMsgBindGood(cfg: Config, sh: Shared, t: nat, m: A.Message, r: BindMove)
    requires SharedInv(cfg, r.sh) && Evolves(sh, r.sh, t)
    ensures StepGood(cfg, sh, t, AfterMsgBind(r, m))
  {
    if r.outcome.Attached? {} else {}
  }

  lemma AfterStartGood(cfg: Config, sh: Shared, t: nat, r: A.Started)
    requires SharedInv(cfg, sh) && PcInv(sh, t, SendStart)
    requires AuthFits(cfg.mode.Connect?, true, r.auth) && Kept(sh.auth, r.auth)
    ensures StepGood(cfg, sh, t, AfterStart(sh, r))
  {
    if r.hello.Ok? {} else {}
  }

  lemma AfterStepGood(cfg: Config, sh: Shared, t: nat, r: A.Stepped)
    requires SharedInv(cfg, sh) && AuthFits(cfg.mode.Connect?, sh.authStarted, r.auth) && Kept(sh.auth, r.auth)
    requires r.result.done && r.result.err.None? ==> r.auth.state.Succeeded?
    ensures StepGood(cfg, sh, t, AfterStep(sh, r))
  {
    if r.result.err.Some? {} else {}
  }

  lemma ClaimGood(cfg: Config, sh: Shared, t: nat)
    requires SharedInv(cfg, sh) && !sh.authStarted
    ensures StepGood(cfg, sh, t, Move(sh.(authStarted := true, claimer := Some(t)), SendStart))
  {
  }

  lemma HelloGood(cfg: Config, sh: Shared, t: nat)
    requires SharedInv(cfg, sh) && PcInv(sh, t, SendHello)
    ensures StepGood(cfg, sh, t, Move(sh.(hellos := sh.hellos + 1), Done))
  {
  }

  lemma SendStayGood(cfg: Config, sh: Shared, t: nat, pc: Pc, env: Env)
    requires SharedInv(cfg, sh) && PcInv(sh, t, pc) && (pc.SendCheckState? || pc.SendCheckOpen? || pc.SendClaim?)
    ensures StepGood(cfg, sh, t, StepSend(cfg, sh, t, pc, env))
  {
    if pc.SendClaim? && cfg.mode.Connect? && !sh.authStarted {
      ClaimGood(cfg, sh, t);
    } else {
      StayGood(cfg, sh, t, StepSend(cfg, sh, t, pc, env).pc);
    }
  }

  lemma SendHelloGood(cfg: Config, sh: Shared, t: nat, pc: Pc, env: Env)
    requires SharedInv(cfg, sh) && PcInv(sh, t, pc) && pc.SendHello?
    ensures StepGood(cfg, sh, t, StepSend(cfg, sh, t, pc, env))
  {
    if env.ok {
      HelloGood(cfg, sh, t);
    } else {
      FailGood(cfg, sh, t);
    }
  }

  lemma SendGood(cfg: Config, sh: Shared, t: nat, pc: Pc, env: Env)
    requires SharedInv(cfg, sh) && PcInv(sh, t, pc) && InSend(pc)
    ensures StepGood(cfg, sh, t, StepSend(cfg, sh, t, pc, env))
  {
    if pc.SendBind? {
      BindGood(cfg, sh, t, env.draw);
      AfterSendBindGood(cfg, sh, t, BindRegion(cfg, sh, env.draw));
    } else if pc.SendStart? {
      StartFits(sh.auth, cfg.mode.Connect?);
      AfterStartGood(cfg, sh, t, A.Start(sh.auth));
    } else if pc.SendHello? {
      SendHelloGood(cfg, sh, t, pc, env);
    } else {
      SendStayGood(cfg, sh, t, pc, env);
    }
  }

  lemma MsgStayGood(cfg: Config, sh: Shared, t: nat, pc: Pc, env: Env)
    requires SharedInv(cfg, sh) && PcInv(sh, t, pc) && (pc.MsgCheck? || pc.MsgReply?)
    ensures StepGood(cfg, sh, t, StepMsg(cfg, sh, pc, env))
  {
    var next := StepMsg(cfg, sh, pc, env).pc;
    if next.FailFix? {
      FailGood(cfg, sh, t);
    } else {
      StayGood(cfg, sh, t, next);
    }
  }

  lemma MsgEndGood(cfg: Config, sh: Shared, t: nat, pc: Pc, env: Env)
    requires SharedInv(cfg, sh) && PcInv(sh, t, pc) && (pc.MsgMove? || pc.MsgFix?)
    ensures StepGood(cfg, sh, t, StepMsg(cfg, sh, pc, env))
  {
    if pc.MsgFix? {
      FixGood(cfg, sh, t, Success, Done);
    } else if Allowed(sh.state, Authenticated) {
      StateGood(cfg, sh, t, Authenticated, MsgFix);
    } else {
      FailGood(cfg, sh, t);
    }
  }

  lemma MsgGood(cfg: Config, sh: Shared, t: nat, pc: Pc, env: Env)
    requires SharedInv(cfg, sh) && PcInv(sh, t, pc) && InMsg(pc)
    ensures StepGood(cfg, sh, t, StepMsg(cfg, sh, pc, env))
  {
    if pc.MsgBind? {
      BindGood(cfg, sh, t, env.draw);
      AfterMsgBindGood(cfg, sh, t, pc.message, BindRegion(cfg, sh, env.draw));
    } else if pc.MsgStep? {
      StepFits(cfg.suite, sh.auth, pc.message, cfg.mode.Connect?, sh.authStarted);
      AfterStepGood(cfg, sh, t, A.Step(cfg.suite, sh.auth, pc.message));
    } else if pc.MsgCheck? || pc.MsgReply? {
      MsgStayGood(cfg, sh, t, pc, env);
    } else {
      MsgEndGood(cfg, sh, t, pc, env);
    }
  }

  lemma HandGood(cfg: Config, sh: Shared, t: nat)
    requires SharedInv(cfg, sh) && sh.result.Success?
    ensures StepGood(cfg, sh, t, Move(sh.(handed := sh.handed + 1), Done))
  {
  }

  lemma PayStayGood(cfg: Config, sh: Shared, t: nat, pc: Pc, env: Env)
    requires SharedInv(cfg, sh) && PcInv(sh, t, pc) && (pc.PayCheckState? || pc.PayCheckAuth? || pc.PayCreate?)
    ensures StepGood(cfg, sh, t, StepPay(cfg, sh, pc, env))
  {
    var next := StepPay(cfg, sh, pc, env).pc;
    if next.FailFix? {
      FailGood(cfg, sh, t);
    } else {
      StayGood(cfg, sh, t, next);
    }
  }

  lemma PayMoveGood(cfg: Config, sh: Shared, t: nat, pc: Pc, env: Env)
    requires SharedInv(cfg, sh) && PcInv(sh, t, pc) && pc.PayMove?
    ensures StepGood(cfg, sh, t, StepPay(cfg, sh, pc, env))
  {
    if Allowed(sh.state, Streaming) {
      StateGood(cfg, sh, t, Streaming, PayHand(pc.inbound));
    } else if pc.inbound {
      FailGood(cfg, sh, t);
    } else {
      StayGood(cfg, sh, t, Done);
    }
  }

  lemma PayHandGood(cfg: Config, sh: Shared, t: nat, pc: Pc, env: Env)
    requires SharedInv(cfg, sh) && sh.result.Success? && pc.PayHand?
    ensures StepGood(cfg, sh, t, StepPay(cfg, sh, pc, env))
  {
    if pc.inbound && cfg.mode.Connect? {
      FailGood(cfg, sh, t);
    } else {
      HandGood(cfg, sh, t);
    }
  }

  lemma PayGood(cfg: Config, sh: Shared, t: nat, pc: Pc, env: Env)
    requires SharedInv(cfg, sh) && PcInv(sh, t, pc) && InPay(pc)
    ensures StepGood(cfg, sh, t, StepPay(cfg, sh, pc, env))
  {
    if pc.PayMove? {
      PayMoveGood(cfg, sh, t, pc, env);
    } else if pc.PayHand? {
      PayHandGood(cfg, sh, t, pc, env);
    } else {
      PayStayGood(cfg, sh, t, pc, env);
    }
  }

  lemma MovedGood(cfg: Config, sh: Shared, t: nat, next: State, pc: Pc)
    requires SharedInv(cfg, sh) && PcInv(sh.(state := Moved(sh.state, next)), t, pc) && Teardown(next)
    ensures StepGood(cfg, sh, t, Move(sh.(state := Moved(sh.state, next)), pc))
  {
    if Allowed(sh.state, next) {
      StateGood(cfg, sh, t, next, pc);
    } else {
      assert sh.(state := sh.state) == sh;
      StayGood(cfg, sh, t, pc);
    }
  }

  predicate ChangesShared(sh: Shared, pc: Pc, env: Env)
  {
    || pc.FailFix? || pc.CloseFix? || pc.FailMove? || pc.CloseMove? || pc.FailClose? || pc.ClosePc?
    || pc.FailClosing? || pc.CloseLastMove?
    || ((pc.FailEnter? || pc.CloseEnter?) && sh.once.Unused?)
    || (pc.ClosePcWait? && !env.ok) || (pc.CloseLastCheck? && !sh.state.Closing?)
  }

  lemma MoveGood(cfg: Config, sh: Shared, t: nat, pc: Pc, env: Env)
    requires SharedInv(cfg, sh) && PcInv(sh, t, pc) && (pc.FailMove? || pc.CloseMove?)
    ensures StepGood(cfg, sh, t, StepTeardown(sh, t, pc, env))
  {
    if pc.FailMove? {
      MovedGood(cfg, sh, t, Failed, FailClose);
    } else {
      MovedGood(cfg, sh, t, Closing, CloseFix);
    }
  }

  lemma OnceBodyGood(cfg: Config, sh: Shared, t: nat, pc: Pc, env: Env)
    requires SharedInv(cfg, sh) && PcInv(sh, t, pc) && InOnce(pc) && ChangesShared(sh, pc, env)
    ensures StepGood(cfg, sh, t, StepTeardown(sh, t, pc, env))
  {
    if pc.CloseFix? {
      FixGood(cfg, sh, t, Failure, ClosePc);
    } else if pc.FailMove? || pc.CloseMove? {
      MoveGood(cfg, sh, t, pc, env);
    } else if pc.FailClose? || pc.ClosePc? {
      CloseGood(cfg, sh, t, if pc.FailClose? then FailClosing else ClosePcWait);
    } else if pc.CloseLastMove? {
      LastMoveGood(cfg, sh, t);
    } else {
      OnceDoneGood(cfg, sh, t);
    }
  }

  lemma TeardownGood(cfg: Config, sh: Shared, t: nat, pc: Pc, env: Env)
    requires SharedInv(cfg, sh) && PcInv(sh, t, pc) && InTeardown(pc)
    ensures StepGood(cfg, sh, t, StepTeardown(sh, t, pc, env))
  {
    if !ChangesShared(sh, pc, env) {
      StayGood(cfg, sh, t, StepTeardown(sh, t, pc, env).pc);
    } else if pc.FailFix? {
      FixGood(cfg, sh, t, Failure, FailEnter);
    } else if pc.FailEnter? || pc.CloseEnter? {
      OnceGood(cfg, sh, t, if pc.FailEnter? then FailCheck else CloseCheck);
    } else {
      OnceBodyGood(cfg, sh, t, pc, env);
    }
  }

  lemma LastMoveGood(cfg: Config, sh: Shared, t: nat)
    requires SharedInv(cfg, sh) && PcInv(sh, t, CloseLastMove)
    ensures StepGood(cfg, sh, t, Move(sh.(state := Moved(sh.state, Closed), once := Finished), Done))
  {
    if Allowed(sh.state, Closed) {} else {}
  }

  lemma StepOneGood(cfg: Config, sh: Shared, t: nat, pc: Pc, env: Env)
    requires SharedInv(cfg, sh) && PcInv(sh, t, pc)
    ensures StepGood(cfg, sh, t, StepOne(cfg, sh, t, pc, env))
  {
    if pc.Done? {
    } else if InSend(pc) {
      SendGood(cfg, sh, t, pc, env);
    } else if InMsg(pc) {
      MsgGood(cfg, sh, t, pc, env);
    } else if InPay(pc) {
      PayGood(cfg, sh, t, pc, env);
    } else if InTeardown(pc) {
      TeardownGood(cfg, sh, t, pc, env);
    } else {
      EnterGood(cfg, sh, t, pc);
    }
  }

  // ---------- whole runs ----------

  lemma SpawnKeepsInv(cfg: Config, s: Sys, op: Op)
    requires SysInv(cfg, s)
    ensures SysInv(cfg, Next(cfg, s, Spawn(op))) && Evolves(s.sh, Next(cfg, s, Spawn(op)).sh, |s.pcs|)
  {
    var t := |s.pcs|;
    var r := if op.FailCall? then ToFail(s.sh) else Move(s.sh, Entry(op));
    if op.FailCall? {
      FailGood(cfg, s.sh, t);
    } else {
      StayGood(cfg, s.sh, t, Entry(op));
    }
    SpawnLifts(cfg, s, r);
  }

  lemma SpawnLifts(cfg: Config, s: Sys, r: Move)
    requires SysInv(cfg, s) && StepGood(cfg, s.sh, |s.pcs|, r)
    ensures SysInv(cfg, Sys(r.sh, s.pcs + [r.pc]))
  {
    forall u | 0 <= u < |s.pcs|
      ensures PcInv(r.sh, u, s.pcs[u])
    {
      OthersKeep(s.sh, r.sh, |s.pcs|, u, s.pcs[u]);
    }
  }

  lemma RunKeepsInv(cfg: Config, s: Sys, t: nat, env: Env)
    requires SysInv(cfg, s) && t < |s.pcs|
    ensures SysInv(cfg, Next(cfg, s, Run(t, env))) && Evolves(s.sh, Next(cfg, s, Run(t, env)).sh, t)
  {
    StepOneGood(cfg, s.sh, t, s.pcs[t], env);
    var r := StepOne(cfg, s.sh, t, s.pcs[t], env);
    StepLifts(cfg, s, t, r);
  }

  lemma StepLifts(cfg: Config, s: Sys, t: nat, r: Move)
    requires SysInv(cfg, s) && t < |s.pcs| && StepGood(cfg, s.sh, t, r)
    ensures SysInv(cfg, Sys(r.sh, s.pcs[t := r.pc]))
  {
    forall u | 0 <= u < |s.pcs| && u != t
      ensures PcInv(r.sh, u, s.pcs[u])
    {
      OthersKeep(s.sh, r.sh, t, u, s.pcs[u]);
    }
  }

  lemma NextKeepsInv(cfg: Config, s: Sys, e: Event)
    requires SysInv(cfg, s)
    ensures SysInv(cfg, Next(cfg, s, e)) && exists t :: Evolves(s.sh, Next(cfg, s, e).sh, t)
  {
    match e
    case Spawn(op) => SpawnKeepsInv(cfg, s, op);
    case Run(t, env) =>
      if t < |s.pcs| {
        RunKeepsInv(cfg, s, t, env);
      } else {
        StayGood(cfg, s.sh, 0, Done);
      }
  }

  lemma {:induction false} EveryRunSafe(cfg: Config, auth: A.Auth, events: seq<Event>)
    requires Fresh(auth)
    ensures SysInv(cfg, RunAll(cfg, auth, events))
  {
    if events != [] {
      var n := |events| - 1;
      EveryRunSafe(cfg, auth, events[..n]);
      NextKeepsInv(cfg, RunAll(cfg, auth, events[..n]), events[n]);
    }
  }

  /** In every interleaving, a payload channel that was handed over, or is about
      to be, comes after the authenticator succeeded and the result was fixed as
      success; so does STREAMING. */
  lemma PayloadOnlyAfterAuth(cfg: Config, auth: A.Auth, events: seq<Event>)
    requires Fresh(auth)
    ensures var s := RunAll(cfg, auth, events);
            && (s.sh.handed > 0 || s.sh.state.Streaming? || (exists t :: 0 <= t < |s.pcs| && s.pcs[t].PayHand?)
                ==> s.sh.result.Success? && s.sh.auth.state.Succeeded?)
            && (s.sh.state.Authenticated? ==> s.sh.auth.state.Succeeded?)
  {
    EveryRunSafe(cfg, auth, events);
  }

  /** The result is written at most once and the connection closed at most once,
      never before the state is CLOSING, CLOSED or FAILED. */
  lemma TeardownOnce(cfg: Config, auth: A.Auth, events: seq<Event>)
    requires Fresh(auth)
    ensures var s := RunAll(cfg, auth, events);
            && s.sh.writes == (if s.sh.result.Pending? then 0 else 1)
            && s.sh.closes <= 1
            && (s.sh.closes > 0 ==> Teardown(s.sh.state))
            && (forall t :: 0 <= t < |s.pcs| && (s.pcs[t].FailClose? || s.pcs[t].ClosePc?) ==>
                  Teardown(s.sh.state) && s.sh.closes == 0)
  {
    EveryRunSafe(cfg, auth, events);
  }

  ghost predicate Lasting(sh: Shared, sh': Shared)
  {
    && (!sh.result.Pending? ==> sh'.result == sh.result)
    && (Teardown(sh.state) ==> Teardown(sh'.state))
    && (sh.auth.state.Succeeded? ==> sh'.auth.state.Succeeded?)
  }

  lemma NextLasts(cfg: Config, s: Sys, e: Event)
    requires SysInv(cfg, s)
    ensures Lasting(s.sh, Next(cfg, s, e).sh)
  {
    NextKeepsInv(cfg, s, e);
  }

  /** Whatever happens later, a fixed result is never revised and a torn-down
      state is never left. */
  lemma {:induction false} FixedForever(cfg: Config, auth: A.Auth, events: seq<Event>, later: seq<Event>)
    requires Fresh(auth)
    ensures Lasting(RunAll(cfg, auth, events).sh, RunAll(cfg, auth, events + later).sh)
  {
    if later == [] {
      assert events + later == events;
    } else {
      var n := |later| - 1;
      var before, all := events + later[..n], events + later;
      FixedForever(cfg, auth, events, later[..n]);
      EveryRunSafe(cfg, auth, before);
      assert all[..|all| - 1] == before && all[|all| - 1] == later[n];
      NextLasts(cfg, RunAll(cfg, auth, before), later[n]);
    }
  }

  /** Once the connection is being closed, a guarded callback returns without
      entering fail, so the close cannot wait for itself. */
  lemma GuardedCallbackReturns(cfg: Config, auth: A.Auth, events: seq<Event>, t: nat, env: Env)
    requires Fresh(auth)
    requires var s := RunAll(cfg, auth, events); t < |s.pcs| && s.pcs[t].GuardCheck? && s.sh.closes > 0
    ensures var s := RunAll(cfg, auth, events);
            Next(cfg, s, Run(t, env)) == Sys(s.sh, s.pcs[t := Done])
  {
    EveryRunSafe(cfg, auth, events);
  }

  // ---------- hello exactly once ----------

  /** Hello is due and not yet sent. */
  ghost predicate Waiting(cfg: Config, sh: Shared)
  {
    && cfg.mode.Connect? && !sh.failEntered && sh.hellos == 0
    && (sh.authStarted || (sh.state.AuthPending? && sh.controlOpen))
  }

  /** The activity at `pc` will send it. */
  ghost predicate Carrier(sh: Shared, pc: Pc)
  {
    if sh.authStarted then pc.SendStart? || pc.SendHello?
    else pc.SendCheckState? || pc.SendCheckOpen? || pc.SendBind? || pc.SendClaim?
  }

  ghost predicate Carried(cfg: Config, s: Sys)
  {
    Waiting(cfg, s.sh) ==> exists t :: 0 <= t < |s.pcs| && Carrier(s.sh, s.pcs[t])
  }

  lemma SendCarries(cfg: Config, sh: Shared, t: nat, pc: Pc, env: Env)
    requires SharedInv(cfg, sh) && PcInv(sh, t, pc) && InSend(pc)
    requires var r := StepSend(cfg, sh, t, pc, env); Waiting(cfg, r.sh)
    ensures var r := StepSend(cfg, sh, t, pc, env);
            && (Carrier(r.sh, r.pc) || (Waiting(cfg, sh) && !Carrier(sh, pc) && r.sh.authStarted == sh.authStarted))
  {
    if pc.SendBind? {
      BindGood(cfg, sh, t, env.draw);
      var b := BindRegion(cfg, sh, env.draw);
      if b.outcome.Attached? {} else {}
    }
  }

  /** Activities other than maybeSendAuth and entry do not touch what hello waits for. */
  ghost predicate LeavesHello(sh: Shared, sh': Shared)
  {
    && sh'.authStarted == sh.authStarted && sh'.hellos == sh.hellos && sh'.controlOpen == sh.controlOpen
    && (sh'.state.AuthPending? ==> sh.state.AuthPending?)
    && (sh.failEntered ==> sh'.failEntered)
  }

  lemma MsgLeavesHello(cfg: Config, sh: Shared, pc: Pc, env: Env)
    requires InMsg(pc)
    ensures LeavesHello(sh, StepMsg(cfg, sh, pc, env).sh)
  {
    if pc.MsgBind? {
      var r := BindRegion(cfg, sh, env.draw);
      if r.outcome.Attached? {} else {}
    } else if pc.MsgStep? {
      var r := A.Step(cfg.suite, sh.auth, pc.message);
      if r.result.err.Some? {} else {}
    }
  }

  lemma PayLeavesHello(cfg: Config, sh: Shared, pc: Pc, env: Env)
    requires InPay(pc)
    ensures LeavesHello(sh, StepPay(cfg, sh, pc, env).sh)
  {
  }

  lemma TeardownLeavesHello(sh: Shared, t: nat, pc: Pc, env: Env)
    requires InTeardown(pc)
    ensures LeavesHello(sh, StepTeardown(sh, t, pc, env).sh)
  {
  }

  lemma EnterCarries(cfg: Config, sh: Shared, pc: Pc)
    requires pc.AttachControl? || pc.OpenPublish? || pc.LocalPublish? || pc.RemotePublish?
          || pc.EnterRead? || pc.EnterCheck? || pc.EnterMove? || pc.GuardCheck?
    requires Waiting(cfg, StepEnter(sh, pc).sh)
    ensures var r := StepEnter(sh, pc);
            r.sh.authStarted == sh.authStarted && (Waiting(cfg, sh) || Carrier(r.sh, r.pc))
  {
  }

  lemma StepCarries(cfg: Config, sh: Shared, t: nat, pc: Pc, env: Env)
    requires SharedInv(cfg, sh) && PcInv(sh, t, pc)
    requires Waiting(cfg, StepOne(cfg, sh, t, pc, env).sh)
    ensures var r := StepOne(cfg, sh, t, pc, env);
            Carrier(r.sh, r.pc) || (Waiting(cfg, sh) && !Carrier(sh, pc) && r.sh.authStarted == sh.authStarted)
  {
    if pc.Done? {
    } else if InSend(pc) {
      SendCarries(cfg, sh, t, pc, env);
    } else if InMsg(pc) {
      MsgLeavesHello(cfg, sh, pc, env);
    } else if InPay(pc) {
      PayLeavesHello(cfg, sh, pc, env);
    } else if InTeardown(pc) {
      TeardownLeavesHello(sh, t, pc, env);
    } else {
      EnterCarries(cfg, sh, pc);
    }
  }

  lemma NextCarries(cfg: Config, s: Sys, e: Event)
    requires SysInv(cfg, s) && Carried(cfg, s)
    ensures Carried(cfg, Next(cfg, s, e))
  {
    var s' := Next(cfg, s, e);
    if Waiting(cfg, s'.sh) {
      if e.Spawn? {
        var u :| 0 <= u < |s.pcs| && Carrier(s.sh, s.pcs[u]);
        assert s'.pcs[u] == s.pcs[u];
      } else if e.t < |s.pcs| {
        StepCarries(cfg, s.sh, e.t, s.pcs[e.t], e.env);
        if Carrier(s'.sh, s'.pcs[e.t]) {
        } else {
          var u :| 0 <= u < |s.pcs| && Carrier(s.sh, s.pcs[u]);
          assert s'.pcs[u] == s.pcs[u];
        }
      }
    }
  }

  lemma {:induction false} EveryRunCarries(cfg: Config, auth: A.Auth, events: seq<Event>)
    requires Fresh(auth)
    ensures Carried(cfg, RunAll(cfg, auth, events))
  {
    if events != [] {
      var n := |events| - 1;
      EveryRunCarries(cfg, auth, events[..n]);
      EveryRunSafe(cfg, auth, events[..n]);
      NextCarries(cfg, RunAll(cfg, auth, events[..n]), events[n]);
    }
  }

  /** Hello is never sent twice. On a connect session that has not failed, once the
      control channel is open, AUTH_PENDING was entered and no activity is inside
      maybeSendAuth, it has been sent: exactly once, in every interleaving. */
  lemma HelloExactlyOnce(cfg: Config, auth: A.Auth, events: seq<Event>)
    requires Fresh(auth)
    ensures var s := RunAll(cfg, auth, events);
            && s.sh.hellos <= 1
            && (&& cfg.mode.Connect? && !s.sh.failEntered && s.sh.controlOpen
                && (s.sh.state.AuthPending? || s.sh.state.Authenticated? || s.sh.state.Streaming?)
                && (forall t :: 0 <= t < |s.pcs| ==> !InSend(s.pcs[t]))
                ==> s.sh.hellos == 1)
  {
    EveryRunSafe(cfg, auth, events);
    EveryRunCarries(cfg, auth, events);
  }
}
