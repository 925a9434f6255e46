/** What a session achieves: a finished handshake is recorded as success, a failing
    or closing session ends torn down, and each activity, left alone, gets done what
    it was started for. */
module SessionProgress {
  import opened Basics
  import opened Bytes
  import opened SessionState
  import opened SessionGate
  import opened SessionSafety
  import A = Authenticator

  // ---------- authentication is settled ----------

  /** While the state says authenticated and the result is open, some activity is
      about to record success. */
  ghost predicate Settling(s: Sys)
  {
    s.sh.state.Authenticated? && s.sh.result.Pending? ==> exists t :: 0 <= t < |s.pcs| && s.pcs[t].MsgFix?
  }

  /** An activity that finished the handshake records success, if nothing was
      recorded before. */
  lemma FinishedHandshakeFixesSuccess(cfg: Config, sh: Shared, t: nat, env: Env)
    requires sh.result.Pending?
    ensures StepOne(cfg, sh, t, MsgFix, env).sh.result.Success?
  {
  }

  ghost predicate SettlesFrom(sh: Shared, pc: Pc, r: Move)
  {
    r.sh.state.Authenticated? && r.sh.result.Pending? ==>
      r.pc.MsgFix? || (sh.state.Authenticated? && sh.result.Pending? && !pc.MsgFix?)
  }

  lemma SendSettles(cfg: Config, sh: Shared, t: nat, pc: Pc, env: Env)
    requires InSend(pc)
    ensures SettlesFrom(sh, pc, StepSend(cfg, sh, t, pc, env))
  {
    if pc.SendBind? {
      var r := BindRegion(cfg, sh, env.draw);
      if r.outcome.Attached? {} else if r.outcome.NotReady? {} else {}
    } else if pc.SendStart? {
      var r := A.Start(sh.auth);
      if r.hello.Ok? {} else {}
    } else {}
  }

  lemma MsgSettles(cfg: Config, sh: Shared, pc: Pc, env: Env)
    requires InMsg(pc)
    ensures SettlesFrom(sh, pc, StepMsg(cfg, sh, pc, env))
  {
    if pc.MsgBind? {
      var r := BindRegion(cfg, sh, env.draw);
      if r.outcome.Attached? {} else {}
    } else if pc.MsgStep? {
      var r := A.Step(cfg.suite, sh.auth, pc.message);
      if r.result.err.Some? {} else {}
    } else {}
  }

  lemma PaySettles(cfg: Config, sh: Shared, pc: Pc, env: Env)
    requires InPay(pc)
    ensures SettlesFrom(sh, pc, StepPay(cfg, sh, pc, env))
  {
  }

  lemma TeardownSettles(sh: Shared, t: nat, pc: Pc, env: Env)
    requires InTeardown(pc)
    ensures SettlesFrom(sh, pc, StepTeardown(sh, t, pc, env))
  {
  }

  lemma RestSettles(cfg: Config, sh: Shared, t: nat, pc: Pc, env: Env)
    requires !InSend(pc) && !InMsg(pc)
    ensures SettlesFrom(sh, pc, StepOne(cfg, sh, t, pc, env))
  {
    if InPay(pc) {
      PaySettles(cfg, sh, pc, env);
    } else if InTeardown(pc) {
      TeardownSettles(sh, t, pc, env);
    } else {}
  }

  lemma NextSettles(cfg: Config, s: Sys, e: Event)
    requires Settling(s)
    ensures Settling(Next(cfg, s, e))
  {
    var s' := Next(cfg, s, e);
    if e.Run? && e.t < |s.pcs| {
      var pc := s.pcs[e.t];
      if InSend(pc) {
        SendSettles(cfg, s.sh, e.t, pc, e.env);
      } else if InMsg(pc) {
        MsgSettles(cfg, s.sh, pc, e.env);
      } else {
        RestSettles(cfg, s.sh, e.t, pc, e.env);
      }
      assert s'.pcs[e.t] == StepOne(cfg, s.sh, e.t, pc, e.env).pc;
    }
    if s'.sh.state.Authenticated? && s'.sh.result.Pending? && !(e.Run? && e.t < |s.pcs| && s'.pcs[e.t].MsgFix?) {
      var t :| 0 <= t < |s.pcs| && s.pcs[t].MsgFix?;
      assert s'.pcs[t] == s.pcs[t];
    }
  }

  lemma {:induction false} EveryRunSettles(cfg: Config, auth: A.Auth, events: seq<Event>)
    ensures Settling(RunAll(cfg, auth, events))
  {
    if events != [] {
      var n := |events| - 1;
      EveryRunSettles(cfg, auth, events[..n]);
      NextSettles(cfg, RunAll(cfg, auth, events[..n]), events[n]);
    }
  }

  /** In every interleaving: an authenticated session that was neither failed nor
      closed, and has no activity about to record its result, is a success; so
      IsAuthenticated says yes and payload channels are let through. */
  lemma AuthenticatedIsSuccess(cfg: Config, auth: A.Auth, events: seq<Event>)
    requires Fresh(auth)
    ensures var s := RunAll(cfg, auth, events);
            && (s.sh.state.Authenticated? || s.sh.state.Streaming?) && !s.sh.failEntered && s.sh.once.Unused?
            && (forall t :: 0 <= t < |s.pcs| ==> !s.pcs[t].MsgFix?)
            ==> s.sh.result.Success?
  {
    EveryRunSafe(cfg, auth, events);
    EveryRunSettles(cfg, auth, events);
  }

  // ---------- one activity, left alone ----------

  /** Where activity `t`, starting at `pc`, stands after `k` steps of its own. */
  function Drive(cfg: Config, sh: Shared, t: nat, pc: Pc, env: Env, k: nat): Move
  {
    if k == 0 then Move(sh, pc)
    else
      var m := Drive(cfg, sh, t, pc, env, k - 1);
      StepOne(cfg, m.sh, t, m.pc, env)
  }

  lemma Begin(cfg: Config, sh: Shared, t: nat, pc: Pc, env: Env) returns (k: nat)
    ensures Drive(cfg, sh, t, pc, env, k) == Move(sh, pc)
  {
    k := 0;
  }

  lemma On(cfg: Config, sh: Shared, t: nat, pc: Pc, env: Env, j: nat, m: Move) returns (k: nat)
    requires Drive(cfg, sh, t, pc, env, j) == m
    ensures Drive(cfg, sh, t, pc, env, k) == StepOne(cfg, m.sh, t, m.pc, env)
  {
    k := j + 1;
  }

  lemma OnSend(cfg: Config, sh: Shared, t: nat, pc: Pc, env: Env, j: nat, m: Move) returns (k: nat)
    requires Drive(cfg, sh, t, pc, env, j) == m && InSend(m.pc)
    ensures Drive(cfg, sh, t, pc, env, k) == StepSend(cfg, m.sh, t, m.pc, env)
  {
    k := On(cfg, sh, t, pc, env, j, m);
  }

  lemma OnMsg(cfg: Config, sh: Shared, t: nat, pc: Pc, env: Env, j: nat, m: Move) returns (k: nat)
    requires Drive(cfg, sh, t, pc, env, j) == m && InMsg(m.pc)
    ensures Drive(cfg, sh, t, pc, env, k) == StepMsg(cfg, m.sh, m.pc, env)
  {
    k := On(cfg, sh, t, pc, env, j, m);
  }

  lemma OnPay(cfg: Config, sh: Shared, t: nat, pc: Pc, env: Env, j: nat, m: Move) returns (k: nat)
    requires Drive(cfg, sh, t, pc, env, j) == m && InPay(m.pc)
    ensures Drive(cfg, sh, t, pc, env, k) == StepPay(cfg, m.sh, m.pc, env)
  {
    k := On(cfg, sh, t, pc, env, j, m);
  }

  lemma OnTeardown(cfg: Config, sh: Shared, t: nat, pc: Pc, env: Env, j: nat, m: Move) returns (k: nat)
    requires Drive(cfg, sh, t, pc, env, j) == m && InTeardown(m.pc)
    ensures Drive(cfg, sh, t, pc, env, k) == StepTeardown(m.sh, t, m.pc, env)
  {
    k := On(cfg, sh, t, pc, env, j, m);
  }

  lemma {:induction false} DriveAdds(cfg: Config, sh: Shared, t: nat, pc: Pc, env: Env, j: nat, k: nat)
    ensures var m := Drive(cfg, sh, t, pc, env, j);
            Drive(cfg, sh, t, pc, env, j + k) == Drive(cfg, m.sh, t, m.pc, env, k)
    decreases k
  {
    if k > 0 {
      DriveAdds(cfg, sh, t, pc, env, j, k - 1);
      assert j + k - 1 == j + (k - 1);
    }
  }

  lemma Continue(cfg: Config, sh: Shared, t: nat, pc: Pc, env: Env, i: nat, mid: Move, j: nat) returns (k: nat)
    requires Drive(cfg, sh, t, pc, env, i) == mid
    ensures Drive(cfg, sh, t, pc, env, k) == Drive(cfg, mid.sh, t, mid.pc, env, j)
  {
    DriveAdds(cfg, sh, t, pc, env, i, j);
    k := i + j;
  }

  lemma Attaches(cfg: Config, sh: Shared, t: nat, channel: nat, env: Env) returns (k: nat)
    requires sh.control.None?
    ensures Drive(cfg, sh, t, AttachControl(channel), env, k) == Move(sh.(control := Some(channel)), Done)
  {
    k := Begin(cfg, sh, t, AttachControl(channel), env);
    k := On(cfg, sh, t, AttachControl(channel), env, k, Move(sh, AttachControl(channel)));
  }

  /** Opening the control channel before the descriptions are known. */
  lemma OpensEarly(cfg: Config, sh: Shared, t: nat, env: Env) returns (k: nat)
    requires sh.state.Signaling?
    ensures Drive(cfg, sh, t, OpenPublish, env, k) == Move(sh.(controlOpen := true), Done)
  {
    var sh1 := sh.(controlOpen := true);
    k := Begin(cfg, sh, t, OpenPublish, env);
    k := On(cfg, sh, t, OpenPublish, env, k, Move(sh, OpenPublish));
    k := OnSend(cfg, sh, t, OpenPublish, env, k, Move(sh1, SendCheckState));
  }

  lemma PublishesLocal(cfg: Config, sh: Shared, t: nat, fp: text, env: Env) returns (k: nat)
    requires fp != [] && sh.remoteFingerprint == []
    ensures Drive(cfg, sh, t, LocalPublish(fp), env, k) == Move(sh.(localFingerprint := fp), Done)
  {
    var pc := LocalPublish(fp);
    k := Begin(cfg, sh, t, pc, env);
    k := On(cfg, sh, t, pc, env, k, Move(sh, pc));
    k := On(cfg, sh, t, pc, env, k, Move(sh.(localFingerprint := fp), EnterRead));
  }

  lemma SeesBothDescriptions(cfg: Config, sh: Shared, t: nat, fp: text, env: Env) returns (k: nat)
    requires fp != [] && sh.localFingerprint != []
    ensures Drive(cfg, sh, t, RemotePublish(fp, true), env, k) == Move(sh.(remoteFingerprint := fp), EnterCheck)
  {
    var pc := RemotePublish(fp, true);
    k := Begin(cfg, sh, t, pc, env);
    k := On(cfg, sh, t, pc, env, k, Move(sh, pc));
    k := On(cfg, sh, t, pc, env, k, Move(sh.(remoteFingerprint := fp), EnterRead));
  }

  lemma LeavesSignaling(cfg: Config, sh: Shared, t: nat, env: Env) returns (k: nat)
    requires sh.state.Signaling?
    ensures Drive(cfg, sh, t, EnterCheck, env, k) == Move(sh.(state := AuthPending), SendCheckState)
  {
    k := Begin(cfg, sh, t, EnterCheck, env);
    k := On(cfg, sh, t, EnterCheck, env, k, Move(sh, EnterCheck));
    k := On(cfg, sh, t, EnterCheck, env, k, Move(sh, EnterMove));
  }

  /** A later description does not move the state, but tries to start again. */
  lemma TriesAgain(cfg: Config, sh: Shared, t: nat, fp: text, env: Env) returns (k: nat)
    requires fp != [] && sh.localFingerprint != [] && !sh.state.Signaling?
    ensures Drive(cfg, sh, t, RemotePublish(fp, true), env, k) == Move(sh.(remoteFingerprint := fp), SendCheckState)
  {
    k := SeesBothDescriptions(cfg, sh, t, fp, env);
    k := On(cfg, sh, t, RemotePublish(fp, true), env, k, Move(sh.(remoteFingerprint := fp), EnterCheck));
  }

  /** The second description moves the session to AUTH_PENDING. */
  lemma EntersAuthPending(cfg: Config, sh: Shared, t: nat, fp: text, env: Env) returns (k: nat)
    requires fp != [] && sh.localFingerprint != [] && sh.state.Signaling?
    ensures Drive(cfg, sh, t, RemotePublish(fp, true), env, k)
         == Move(sh.(remoteFingerprint := fp, state := AuthPending), SendCheckState)
  {
    var sh1 := sh.(remoteFingerprint := fp);
    var i := SeesBothDescriptions(cfg, sh, t, fp, env);
    var j := LeavesSignaling(cfg, sh1, t, env);
    k := Continue(cfg, sh, t, RemotePublish(fp, true), env, i, Move(sh1, EnterCheck), j);
  }

  /** What Bind is called with. */
  function BindHere(cfg: Config, sh: Shared, env: Env): A.Bound
  {
    A.Bind(cfg.suite, sh.auth, A.Material(cfg.sessionId, cfg.mode, sh.localFingerprint, sh.remoteFingerprint), env.draw)
  }

  /** Ready to bind: in AUTH_PENDING, channel open, both descriptions known. */
  predicate Bindable(sh: Shared)
  {
    && sh.state.AuthPending? && sh.control.Some? && sh.controlOpen && !sh.authBound
    && sh.localFingerprint != [] && sh.remoteFingerprint != []
  }

  lemma Binds(cfg: Config, sh: Shared, t: nat, env: Env) returns (k: nat)
    requires Bindable(sh) && BindHere(cfg, sh, env).err.None?
    ensures Drive(cfg, sh, t, SendCheckState, env, k)
         == Move(sh.(auth := BindHere(cfg, sh, env).auth, authBound := true), SendClaim)
  {
    k := Begin(cfg, sh, t, SendCheckState, env);
    k := OnSend(cfg, sh, t, SendCheckState, env, k, Move(sh, SendCheckState));
    k := OnSend(cfg, sh, t, SendCheckState, env, k, Move(sh, SendCheckOpen));
    k := OnSend(cfg, sh, t, SendCheckState, env, k, Move(sh, SendBind));
  }

  /** The connect side then starts the handshake and sends its hello. */
  lemma SendsHello(cfg: Config, sh: Shared, t: nat, env: Env) returns (k: nat)
    requires cfg.mode.Connect? && !sh.authStarted && A.Start(sh.auth).hello.Ok? && env.ok
    ensures Drive(cfg, sh, t, SendClaim, env, k)
         == Move(sh.(authStarted := true, claimer := Some(t), auth := A.Start(sh.auth).auth,
                     hellos := sh.hellos + 1), Done)
  {
    var sh1 := sh.(authStarted := true, claimer := Some(t));
    var sh2 := sh1.(auth := A.Start(sh.auth).auth);
    k := Begin(cfg, sh, t, SendClaim, env);
    k := OnSend(cfg, sh, t, SendClaim, env, k, Move(sh, SendClaim));
    k := OnSend(cfg, sh, t, SendClaim, env, k, Move(sh1, SendStart));
    k := OnSend(cfg, sh, t, SendClaim, env, k, Move(sh2, SendHello));
  }

  /** The expose side waits. */
  lemma WaitsForHello(cfg: Config, sh: Shared, t: nat, env: Env) returns (k: nat)
    requires !cfg.mode.Connect?
    ensures Drive(cfg, sh, t, SendClaim, env, k) == Move(sh, Done)
  {
    k := Begin(cfg, sh, t, SendClaim, env);
    k := OnSend(cfg, sh, t, SendClaim, env, k, Move(sh, SendClaim));
  }

  lemma DescribesAndBinds(cfg: Config, sh: Shared, t: nat, fp: text, env: Env) returns (k: nat)
    requires fp != [] && sh.localFingerprint != [] && sh.state.Signaling?
    requires sh.control.Some? && sh.controlOpen && !sh.authBound
    requires var sh1 := sh.(remoteFingerprint := fp, state := AuthPending); BindHere(cfg, sh1, env).err.None?
    ensures var sh1 := sh.(remoteFingerprint := fp, state := AuthPending);
            Drive(cfg, sh, t, RemotePublish(fp, true), env, k)
            == Move(sh1.(auth := BindHere(cfg, sh1, env).auth, authBound := true), SendClaim)
  {
    var sh1 := sh.(remoteFingerprint := fp, state := AuthPending);
    var i := EntersAuthPending(cfg, sh, t, fp, env);
    var j := Binds(cfg, sh1, t, env);
    k := Continue(cfg, sh, t, RemotePublish(fp, true), env, i, Move(sh1, SendCheckState), j);
  }

  /** A control frame reaches the authenticator. */
  lemma FrameReachesStep(cfg: Config, sh: Shared, t: nat, m: A.Message, env: Env) returns (k: nat)
    requires sh.state.AuthPending? && sh.control.Some? && sh.authBound
    ensures Drive(cfg, sh, t, MsgCheck(Some(m)), env, k) == Move(sh, MsgStep(m))
  {
    var pc := MsgCheck(Some(m));
    k := Begin(cfg, sh, t, pc, env);
    k := On(cfg, sh, t, pc, env, k, Move(sh, pc));
    k := OnMsg(cfg, sh, t, pc, env, k, Move(sh, MsgBind(m)));
  }

  /** An answer that does not finish the handshake. */
  lemma Answers(cfg: Config, sh: Shared, t: nat, m: A.Message, env: Env) returns (k: nat)
    requires var r := A.Step(cfg.suite, sh.auth, m); r.result.err.None? && !r.result.done && env.ok
    ensures Drive(cfg, sh, t, MsgStep(m), env, k) == Move(sh.(auth := A.Step(cfg.suite, sh.auth, m).auth), Done)
  {
    var r := A.Step(cfg.suite, sh.auth, m);
    k := Begin(cfg, sh, t, MsgStep(m), env);
    k := OnMsg(cfg, sh, t, MsgStep(m), env, k, Move(sh, MsgStep(m)));
    k := OnMsg(cfg, sh, t, MsgStep(m), env, k, Move(sh.(auth := r.auth), MsgReply(r.result.outbound, false)));
  }

  lemma Replies(cfg: Config, sh: Shared, t: nat, m: A.Message, env: Env) returns (k: nat)
    requires var r := A.Step(cfg.suite, sh.auth, m); r.result.err.None? && r.result.done && env.ok
    ensures Drive(cfg, sh, t, MsgStep(m), env, k) == Move(sh.(auth := A.Step(cfg.suite, sh.auth, m).auth), MsgMove)
  {
    var r := A.Step(cfg.suite, sh.auth, m);
    k := Begin(cfg, sh, t, MsgStep(m), env);
    k := OnMsg(cfg, sh, t, MsgStep(m), env, k, Move(sh, MsgStep(m)));
    k := OnMsg(cfg, sh, t, MsgStep(m), env, k, Move(sh.(auth := r.auth), MsgReply(r.result.outbound, true)));
  }

  lemma RecordsSuccess(cfg: Config, sh: Shared, t: nat, env: Env) returns (k: nat)
    requires sh.state.AuthPending? && sh.result.Pending?
    ensures Drive(cfg, sh, t, MsgMove, env, k)
         == Move(sh.(state := Authenticated, result := Success, writes := sh.writes + 1), Done)
  {
    k := Begin(cfg, sh, t, MsgMove, env);
    k := OnMsg(cfg, sh, t, MsgMove, env, k, Move(sh, MsgMove));
    k := OnMsg(cfg, sh, t, MsgMove, env, k, Move(sh.(state := Authenticated), MsgFix));
  }

  /** The frame that finishes the handshake makes the session authenticated. */
  lemma Authenticates(cfg: Config, sh: Shared, t: nat, m: A.Message, env: Env) returns (k: nat)
    requires var r := A.Step(cfg.suite, sh.auth, m); r.result.err.None? && r.result.done && env.ok
    requires sh.state.AuthPending? && sh.result.Pending?
    ensures Drive(cfg, sh, t, MsgStep(m), env, k)
         == Move(sh.(auth := A.Step(cfg.suite, sh.auth, m).auth, state := Authenticated, result := Success,
                     writes := sh.writes + 1), Done)
  {
    var sh1 := sh.(auth := A.Step(cfg.suite, sh.auth, m).auth);
    var i := Replies(cfg, sh, t, m, env);
    var j := RecordsSuccess(cfg, sh1, t, env);
    k := Continue(cfg, sh, t, MsgStep(m), env, i, Move(sh1, MsgMove), j);
  }

  lemma FrameAnswered(cfg: Config, sh: Shared, t: nat, m: A.Message, env: Env) returns (k: nat)
    requires sh.state.AuthPending? && sh.control.Some? && sh.authBound && env.ok
    requires var r := A.Step(cfg.suite, sh.auth, m); r.result.err.None? && !r.result.done
    ensures Drive(cfg, sh, t, MsgCheck(Some(m)), env, k)
         == Move(sh.(auth := A.Step(cfg.suite, sh.auth, m).auth), Done)
  {
    var i := FrameReachesStep(cfg, sh, t, m, env);
    var j := Answers(cfg, sh, t, m, env);
    k := Continue(cfg, sh, t, MsgCheck(Some(m)), env, i, Move(sh, MsgStep(m)), j);
  }

  lemma FrameAuthenticates(cfg: Config, sh: Shared, t: nat, m: A.Message, env: Env) returns (k: nat)
    requires sh.state.AuthPending? && sh.control.Some? && sh.authBound && sh.result.Pending? && env.ok
    requires var r := A.Step(cfg.suite, sh.auth, m); r.result.err.None? && r.result.done
    ensures Drive(cfg, sh, t, MsgCheck(Some(m)), env, k)
         == Move(sh.(auth := A.Step(cfg.suite, sh.auth, m).auth, state := Authenticated, result := Success,
                     writes := sh.writes + 1), Done)
  {
    var i := FrameReachesStep(cfg, sh, t, m, env);
    var j := Authenticates(cfg, sh, t, m, env);
    k := Continue(cfg, sh, t, MsgCheck(Some(m)), env, i, Move(sh, MsgStep(m)), j);
  }

  predicate IsOpen(sh: Shared)
  {
    (sh.state.Authenticated? || sh.state.Streaming?) && sh.result.Success?
  }

  lemma PassesGate(cfg: Config, sh: Shared, t: nat, inbound: bool, env: Env) returns (k: nat)
    requires IsOpen(sh)
    ensures Drive(cfg, sh, t, PayCheckState(inbound), env, k)
         == Move(sh, if inbound then PayMove(true) else PayCreate)
  {
    var pc := PayCheckState(inbound);
    k := Begin(cfg, sh, t, pc, env);
    k := On(cfg, sh, t, pc, env, k, Move(sh, pc));
    k := OnPay(cfg, sh, t, pc, env, k, Move(sh, PayCheckAuth(inbound)));
  }

  lemma Hands(cfg: Config, sh: Shared, t: nat, inbound: bool, env: Env) returns (k: nat)
    requires IsOpen(sh) && !(inbound && cfg.mode.Connect?)
    ensures Drive(cfg, sh, t, PayMove(inbound), env, k) == Move(sh.(state := Streaming, handed := sh.handed + 1), Done)
  {
    k := Begin(cfg, sh, t, PayMove(inbound), env);
    k := OnPay(cfg, sh, t, PayMove(inbound), env, k, Move(sh, PayMove(inbound)));
    k := OnPay(cfg, sh, t, PayMove(inbound), env, k, Move(sh.(state := Streaming), PayHand(inbound)));
  }

  /** An authenticated session opens payload channels. */
  lemma OpensStream(cfg: Config, sh: Shared, t: nat, env: Env) returns (k: nat)
    requires IsOpen(sh) && env.ok
    ensures Drive(cfg, sh, t, PayCheckState(false), env, k)
         == Move(sh.(state := Streaming, handed := sh.handed + 1), Done)
  {
    var i := PassesGate(cfg, sh, t, false, env);
    i := OnPay(cfg, sh, t, PayCheckState(false), env, i, Move(sh, PayCreate));
    var j := Hands(cfg, sh, t, false, env);
    k := Continue(cfg, sh, t, PayCheckState(false), env, i, Move(sh, PayMove(false)), j);
  }

  /** And on the expose side accepts the peer's. */
  lemma AcceptsStream(cfg: Config, sh: Shared, t: nat, env: Env) returns (k: nat)
    requires IsOpen(sh) && !cfg.mode.Connect?
    ensures Drive(cfg, sh, t, PayCheckState(true), env, k)
         == Move(sh.(state := Streaming, handed := sh.handed + 1), Done)
  {
    var i := PassesGate(cfg, sh, t, true, env);
    var j := Hands(cfg, sh, t, true, env);
    k := Continue(cfg, sh, t, PayCheckState(true), env, i, Move(sh, PayMove(true)), j);
  }

  /** A session that is not authenticated opens none, and an arriving one fails it. */
  lemma RefusesStream(cfg: Config, sh: Shared, t: nat, env: Env, inbound: bool)
    requires !sh.state.Authenticated? && !sh.state.Streaming?
    ensures StepOne(cfg, sh, t, PayCheckState(inbound), env)
         == if inbound then Move(sh.(failEntered := true), FailFix) else Move(sh, Done)
  {
  }

  lemma FailBegins(cfg: Config, sh: Shared, t: nat, env: Env) returns (k: nat)
    requires sh.once.Unused?
    ensures Drive(cfg, sh, t, FailFix, env, k) == Move(Complete(sh, Failure).(once := Running(t)), FailCheck)
  {
    k := Begin(cfg, sh, t, FailFix, env);
    k := OnTeardown(cfg, sh, t, FailFix, env, k, Move(sh, FailFix));
    k := OnTeardown(cfg, sh, t, FailFix, env, k, Move(Complete(sh, Failure), FailEnter));
  }

  lemma FailMoves(cfg: Config, sh: Shared, t: nat, env: Env) returns (k: nat)
    requires !Teardown(sh.state)
    ensures Drive(cfg, sh, t, FailCheck, env, k) == Move(sh.(state := Failed), FailClose)
  {
    k := Begin(cfg, sh, t, FailCheck, env);
    k := OnTeardown(cfg, sh, t, FailCheck, env, k, Move(sh, FailCheck));
    k := OnTeardown(cfg, sh, t, FailCheck, env, k, Move(sh, FailMove));
  }

  lemma FailCloses(cfg: Config, sh: Shared, t: nat, env: Env) returns (k: nat)
    ensures Drive(cfg, sh, t, FailClose, env, k) == Move(sh.(closes := sh.closes + 1, once := Finished), Done)
  {
    k := Begin(cfg, sh, t, FailClose, env);
    k := OnTeardown(cfg, sh, t, FailClose, env, k, Move(sh, FailClose));
    k := OnTeardown(cfg, sh, t, FailClose, env, k, Move(sh.(closes := sh.closes + 1), FailClosing));
  }

  /** What is recorded by a teardown: failure, unless the result was fixed before. */
  function Recorded(r: AuthResult): AuthResult
  {
    match r
    case Pending => Failure
    case Success => Success
    case Failure => Failure
  }

  /** Failing, if nothing else tears the session down: the result is failure unless
      it was fixed before, the state is FAILED, and the connection is closed. */
  lemma FailTearsDown(cfg: Config, sh: Shared, t: nat, env: Env) returns (k: nat)
    requires sh.once.Unused? && !Teardown(sh.state)
    ensures var m := Drive(cfg, sh, t, FailFix, env, k);
            && m.pc.Done? && m.sh.state.Failed? && m.sh.result == Recorded(sh.result)
            && m.sh.closes == sh.closes + 1 && m.sh.once.Finished? && m.sh.auth == sh.auth
  {
    var sh1 := Complete(sh, Failure).(once := Running(t));
    var sh2 := sh1.(state := Failed);
    k := FailBegins(cfg, sh, t, env);
    var j := FailMoves(cfg, sh1, t, env);
    k := Continue(cfg, sh, t, FailFix, env, k, Move(sh1, FailCheck), j);
    j := FailCloses(cfg, sh2, t, env);
    k := Continue(cfg, sh, t, FailFix, env, k, Move(sh2, FailClose), j);
  }

  lemma CloseBegins(cfg: Config, sh: Shared, t: nat, env: Env) returns (k: nat)
    requires sh.once.Unused? && !Teardown(sh.state)
    ensures Drive(cfg, sh, t, CloseEnter, env, k) == Move(sh.(once := Running(t), state := Closing), CloseFix)
  {
    var sh1 := sh.(once := Running(t));
    k := Begin(cfg, sh, t, CloseEnter, env);
    k := OnTeardown(cfg, sh, t, CloseEnter, env, k, Move(sh, CloseEnter));
    k := OnTeardown(cfg, sh, t, CloseEnter, env, k, Move(sh1, CloseCheck));
    k := OnTeardown(cfg, sh, t, CloseEnter, env, k, Move(sh1, CloseMove));
  }

  lemma CloseCloses(cfg: Config, sh: Shared, t: nat, env: Env) returns (k: nat)
    requires env.ok
    ensures Drive(cfg, sh, t, CloseFix, env, k)
         == Move(Complete(sh, Failure).(closes := sh.closes + 1), CloseLastCheck)
  {
    var sh1 := Complete(sh, Failure);
    k := Begin(cfg, sh, t, CloseFix, env);
    k := OnTeardown(cfg, sh, t, CloseFix, env, k, Move(sh, CloseFix));
    k := OnTeardown(cfg, sh, t, CloseFix, env, k, Move(sh1, ClosePc));
    k := OnTeardown(cfg, sh, t, CloseFix, env, k, Move(sh1.(closes := sh.closes + 1), ClosePcWait));
  }

  lemma CloseEnds(cfg: Config, sh: Shared, t: nat, env: Env) returns (k: nat)
    requires sh.state.Closing?
    ensures Drive(cfg, sh, t, CloseLastCheck, env, k) == Move(sh.(state := Closed, once := Finished), Done)
  {
    k := Begin(cfg, sh, t, CloseLastCheck, env);
    k := OnTeardown(cfg, sh, t, CloseLastCheck, env, k, Move(sh, CloseLastCheck));
    k := OnTeardown(cfg, sh, t, CloseLastCheck, env, k, Move(sh, CloseLastMove));
  }

  /** Closing likewise ends in CLOSED. */
  lemma CloseTearsDown(cfg: Config, sh: Shared, t: nat, env: Env) returns (k: nat)
    requires sh.once.Unused? && !Teardown(sh.state) && env.ok
    ensures var m := Drive(cfg, sh, t, CloseEnter, env, k);
            && m.pc.Done? && m.sh.state.Closed? && m.sh.result == Recorded(sh.result)
            && m.sh.closes == sh.closes + 1 && m.sh.once.Finished? && m.sh.auth == sh.auth
  {
    var sh1 := sh.(once := Running(t), state := Closing);
    var sh2 := Complete(sh1, Failure).(closes := sh.closes + 1);
    k := CloseBegins(cfg, sh, t, env);
    var j := CloseCloses(cfg, sh1, t, env);
    k := Continue(cfg, sh, t, CloseEnter, env, k, Move(sh1, CloseFix), j);
    j := CloseEnds(cfg, sh2, t, env);
    k := Continue(cfg, sh, t, CloseEnter, env, k, Move(sh2, CloseLastCheck), j);
  }

  // ---------- what makes a session fail ----------

  /** Bind is due and refuses. */
  predicate BindRefused(cfg: Config, sh: Shared, env: Env)
  {
    !sh.authBound && sh.localFingerprint != [] && sh.remoteFingerprint != [] && BindHere(cfg, sh, env).err.Some?
  }

  /** The step meets an error that ends the session: a second control channel, a
      control frame out of place, undecodable or refused, a refused Bind or Start, a
      send that fails, a lost connection, or the peer's payload channel before
      authentication or at the connect side. */
  predicate Offends(cfg: Config, sh: Shared, pc: Pc, env: Env)
  {
    match pc
    case AttachControl(dc) => sh.control.Some? && sh.control.value != dc
    case EnterMove => sh.state != Signaling
    case GuardCheck => sh.state !in {Closing, Closed, Failed}
    case SendBind => sh.control.None? || BindRefused(cfg, sh, env)
    case SendStart => !sh.auth.bound || !sh.auth.initiator || sh.auth.state != A.Init
    case SendHello => !env.ok
    case MsgCheck(data) => sh.state != AuthPending || data.None?
    case MsgBind(_) =>
      || sh.control.None? || BindRefused(cfg, sh, env)
      || (!sh.authBound && (sh.localFingerprint == [] || sh.remoteFingerprint == []))
    case MsgStep(m) => A.Step(cfg.suite, sh.auth, m).result.err.Some?
    case MsgReply(out, _) => out.Some? && !env.ok
    case MsgMove => sh.state != AuthPending
    case PayCheckState(inbound) => inbound && sh.state !in {Authenticated, Streaming}
    case PayCheckAuth(inbound) => inbound && sh.result != Success
    case PayMove(inbound) => inbound && sh.state !in {Authenticated, Streaming}
    case PayHand(inbound) => inbound && cfg.mode.Connect?
    case _ => false
  }

  /** A step either goes on or fails the session, and touches at most the
      authenticator when it fails. */
  ghost predicate FailsIff(sh: Shared, r: Move, offends: bool)
  {
    && (r.pc.FailFix? <==> offends)
    && (offends ==> r.sh == sh.(failEntered := true, auth := r.sh.auth))
  }

  lemma EnterFails(cfg: Config, sh: Shared, t: nat, pc: Pc, env: Env)
    requires !pc.Done? && !InSend(pc) && !InMsg(pc) && !InPay(pc) && !InTeardown(pc)
    ensures FailsIff(sh, StepEnter(sh, pc), Offends(cfg, sh, pc, env))
  {
  }

  lemma SendFails(cfg: Config, sh: Shared, t: nat, pc: Pc, env: Env)
    requires InSend(pc)
    ensures FailsIff(sh, StepSend(cfg, sh, t, pc, env), Offends(cfg, sh, pc, env))
  {
    if pc.SendBind? {
      if sh.control.None? || sh.authBound {} else if BindRefused(cfg, sh, env) {} else {}
    } else if pc.SendStart? {
      var r := A.Start(sh.auth);
      if r.hello.Ok? {} else {}
    } else {}
  }

  lemma MsgFails(cfg: Config, sh: Shared, pc: Pc, env: Env)
    requires InMsg(pc)
    ensures FailsIff(sh, StepMsg(cfg, sh, pc, env), Offends(cfg, sh, pc, env))
  {
    if pc.MsgBind? {
      if sh.control.None? || sh.authBound {} else if BindRefused(cfg, sh, env) {} else {}
    } else if pc.MsgStep? {
      var r := A.Step(cfg.suite, sh.auth, pc.message);
      if r.result.err.Some? {} else {}
    } else {}
  }

  lemma PayFails(cfg: Config, sh: Shared, pc: Pc, env: Env)
    requires InPay(pc)
    ensures FailsIff(sh, StepPay(cfg, sh, pc, env), Offends(cfg, sh, pc, env))
  {
  }

  lemma TeardownNeverFails(sh: Shared, t: nat, pc: Pc, env: Env)
    requires InTeardown(pc)
    ensures !StepTeardown(sh, t, pc, env).pc.FailFix?
  {
  }

  /** A session fails exactly at those errors. */
  lemma FailsExactly(cfg: Config, sh: Shared, t: nat, pc: Pc, env: Env)
    ensures FailsIff(sh, StepOne(cfg, sh, t, pc, env), Offends(cfg, sh, pc, env))
  {
    if pc.Done? {
    } else if InSend(pc) {
      SendFails(cfg, sh, t, pc, env);
    } else if InMsg(pc) {
      MsgFails(cfg, sh, pc, env);
    } else if InPay(pc) {
      PayFails(cfg, sh, pc, env);
    } else if InTeardown(pc) {
      TeardownNeverFails(sh, t, pc, env);
    } else {
      EnterFails(cfg, sh, t, pc, env);
    }
  }

  /** And then, left alone, it ends FAILED with its connection closed once and
      failure recorded, unless its result was fixed before. */
  lemma OffenceTearsDown(cfg: Config, sh: Shared, t: nat, pc: Pc, env: Env) returns (k: nat)
    requires Offends(cfg, sh, pc, env) && sh.once.Unused? && !Teardown(sh.state)
    ensures var m := Drive(cfg, sh, t, pc, env, k);
            && m.pc.Done? && m.sh.state.Failed? && m.sh.result == Recorded(sh.result)
            && m.sh.closes == sh.closes + 1 && m.sh.once.Finished?
  {
    FailsExactly(cfg, sh, t, pc, env);
    var r := StepOne(cfg, sh, t, pc, env);
    var i := Begin(cfg, sh, t, pc, env);
    i := On(cfg, sh, t, pc, env, i, Move(sh, pc));
    var j := FailTearsDown(cfg, r.sh, t, env);
    k := Continue(cfg, sh, t, pc, env, i, r, j);
  }
}
