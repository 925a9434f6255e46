/** The session as concurrent activities over two locks. Each lock region is one
    atomic step; `Pc` says where an activity stands between regions. */
module SessionGate {
  import opened Basics
  import opened Bytes
  import opened SessionState
  import A = Authenticator

  datatype Config = Config(suite: A.Suite, mode: A.Mode, sessionId: text)

  datatype AuthResult = Pending | Success | Failure

  /** sync.Once: one activity runs the body, later ones wait until it is done. */
  datatype Once = Unused | Running(owner: nat) | Finished

  /** Everything the activities share, plus what has happened so far. */
  datatype Shared = Shared(
    state: State,
    control: Option<nat>,
    controlOpen: bool,
    localFingerprint: text,
    remoteFingerprint: text,
    authBound: bool,
    authStarted: bool,
    result: AuthResult,
    auth: A.Auth,
    once: Once,
    // history
    claimer: Option<nat>,
    hellos: nat,
    handed: nat,
    closes: nat,
    writes: nat,
    failEntered: bool)

  datatype Pc =
    | Done
    | AttachControl(channel: nat)
    | OpenPublish
    | LocalPublish(fingerprint: text) | RemotePublish(fingerprint: text, flushed: bool)
    | EnterRead | EnterCheck | EnterMove
    | SendCheckState | SendCheckOpen | SendBind | SendClaim | SendStart | SendHello
    | MsgCheck(data: Option<A.Message>) | MsgBind(message: A.Message) | MsgStep(message: A.Message)
    | MsgReply(outbound: Option<A.Message>, done: bool) | MsgMove | MsgFix
    | PayCheckState(inbound: bool) | PayCheckAuth(inbound: bool) | PayCreate
    | PayMove(inbound: bool) | PayHand(inbound: bool)
    | GuardCheck
    | FailFix | FailEnter | FailCheck | FailMove | FailClose | FailClosing
    | CloseEnter | CloseCheck | CloseMove | CloseFix | ClosePc | ClosePcWait | CloseLastCheck | CloseLastMove

  /** What the outside decides in a step: whether the send, create or close call
      works, and what Bind draws. */
  datatype Env = Env(ok: bool, draw: A.Draw)

  // ---------- lock regions ----------

  function Complete(sh: Shared, r: AuthResult): Shared
  {
    if sh.result.Pending? then sh.(result := r, writes := sh.writes + 1) else sh
  }

  /** One step: the shared state after it and where the activity then stands. */
  datatype Move = Move(sh: Shared, pc: Pc)

  function ToFail(sh: Shared): Move
  {
    Move(sh.(failEntered := true), FailFix)
  }

  datatype BindOutcome = Attached | NotReady | Refused

  datatype BindMove = BindMove(sh: Shared, outcome: BindOutcome)

  function BindRegion(cfg: Config, sh: Shared, draw: A.Draw): BindMove
  {
    if sh.control.None? then BindMove(sh, Refused)
    else if sh.authBound then BindMove(sh, Attached)
    else if sh.localFingerprint == [] || sh.remoteFingerprint == [] then BindMove(sh, NotReady)
    else
      var m := A.Material(cfg.sessionId, cfg.mode, sh.localFingerprint, sh.remoteFingerprint);
      AfterBind(sh, A.Bind(cfg.suite, sh.auth, m, draw))
  }

  function AfterBind(sh: Shared, r: A.Bound): BindMove
  {
    if r.err.Some? then BindMove(sh.(auth := r.auth), Refused)
    else BindMove(sh.(auth := r.auth, authBound := true), Attached)
  }

  // ---------- activities ----------

  function StepEnter(sh: Shared, pc: Pc): Move
    requires pc.AttachControl? || pc.OpenPublish? || pc.LocalPublish? || pc.RemotePublish?
          || pc.EnterRead? || pc.EnterCheck? || pc.EnterMove? || pc.GuardCheck?
  {
    match pc
    case AttachControl(dc) =>
      if sh.control.Some? && sh.control.value != dc then ToFail(sh) else Move(sh.(control := Some(dc)), Done)
    case OpenPublish => Move(sh.(controlOpen := true), SendCheckState)
    case LocalPublish(fp) => if fp == [] then Move(sh, Done) else Move(sh.(localFingerprint := fp), EnterRead)
    case RemotePublish(fp, flushed) =>
      if fp == [] then Move(sh, Done) else Move(sh.(remoteFingerprint := fp), if flushed then EnterRead else Done)
    case EnterRead => Move(sh, if sh.localFingerprint != [] && sh.remoteFingerprint != [] then EnterCheck else Done)
    case EnterCheck => Move(sh, if sh.state.Signaling? then EnterMove else SendCheckState)
    case EnterMove =>
      if Allowed(sh.state, AuthPending) then Move(sh.(state := AuthPending), SendCheckState) else ToFail(sh)
    case GuardCheck => if Teardown(sh.state) then Move(sh, Done) else ToFail(sh)
  }

  predicate InSend(pc: Pc)
  {
    pc.SendCheckState? || pc.SendCheckOpen? || pc.SendBind? || pc.SendClaim? || pc.SendStart? || pc.SendHello?
  }

  function StepSend(cfg: Config, sh: Shared, t: nat, pc: Pc, env: Env): Move
    requires InSend(pc)
  {
    match pc
    case SendCheckState => Move(sh, if sh.state.AuthPending? then SendCheckOpen else Done)
    case SendCheckOpen => Move(sh, if sh.controlOpen then SendBind else Done)
    case SendBind =>
      AfterSendBind(BindRegion(cfg, sh, env.draw))
    case SendClaim =>
      if !cfg.mode.Connect? || sh.authStarted then Move(sh, Done)
      else Move(sh.(authStarted := true, claimer := Some(t)), SendStart)
    case SendStart => AfterStart(sh, A.Start(sh.auth))
    case SendHello => if env.ok then Move(sh.(hellos := sh.hellos + 1), Done) else ToFail(sh)
  }

  function AfterSendBind(r: BindMove): Move
  {
    if r.outcome.Attached? then Move(r.sh, SendClaim)
    else if r.outcome.NotReady? then Move(r.sh, Done)
    else ToFail(r.sh)
  }

  function AfterStart(sh: Shared, r: A.Started): Move
  {
    if r.hello.Ok? then Move(sh.(auth := r.auth), SendHello) else ToFail(sh.(auth := r.auth))
  }

  predicate InMsg(pc: Pc)
  {
    pc.MsgCheck? || pc.MsgBind? || pc.MsgStep? || pc.MsgReply? || pc.MsgMove? || pc.MsgFix?
  }

  function StepMsg(cfg: Config, sh: Shared, pc: Pc, env: Env): Move
    requires InMsg(pc)
  {
    match pc
    case MsgCheck(data) =>
      if !sh.state.AuthPending? || data.None? then ToFail(sh) else Move(sh, MsgBind(data.value))
    case MsgBind(m) =>
      AfterMsgBind(BindRegion(cfg, sh, env.draw), m)
    case MsgStep(m) => AfterStep(sh, A.Step(cfg.suite, sh.auth, m))
    case MsgReply(out, done) =>
      if out.Some? && !env.ok then ToFail(sh)
      else Move(sh, if done then MsgMove else Done)
    case MsgMove =>
      if Allowed(sh.state, Authenticated) then Move(sh.(state := Authenticated), MsgFix) else ToFail(sh)
    case MsgFix => Move(Complete(sh, Success), Done)
  }

  function AfterMsgBind(r: BindMove, m: A.Message): Move
  {
    if r.outcome.Attached? then Move(r.sh, MsgStep(m)) else ToFail(r.sh)
  }

  function AfterStep(sh: Shared, r: A.Stepped): Move
  {
    if r.result.err.Some? then ToFail(sh.(auth := r.auth))
    else Move(sh.(auth := r.auth), MsgReply(r.result.outbound, r.result.done))
  }

  predicate InPay(pc: Pc)
  {
    pc.PayCheckState? || pc.PayCheckAuth? || pc.PayCreate? || pc.PayMove? || pc.PayHand?
  }

  /** A payload channel: opened by us, or arriving from the peer. A refusal is an
      error to our caller, but fails the session for the peer's channel. Only the
      expose side accepts the peer's channels. */
  function StepPay(cfg: Config, sh: Shared, pc: Pc, env: Env): Move
    requires InPay(pc)
  {
    match pc
    case PayCheckState(inbound) =>
      if sh.state.Authenticated? || sh.state.Streaming? then Move(sh, PayCheckAuth(inbound))
      else if inbound then ToFail(sh) else Move(sh, Done)
    case PayCheckAuth(inbound) =>
      if sh.result.Success? then Move(sh, if inbound then PayMove(true) else PayCreate)
      else if inbound then ToFail(sh) else Move(sh, Done)
    case PayCreate => Move(sh, if env.ok then PayMove(false) else Done)
    case PayMove(inbound) =>
      if Allowed(sh.state, Streaming) then Move(sh.(state := Streaming), PayHand(inbound))
      else if inbound then ToFail(sh) else Move(sh, Done)
    case PayHand(inbound) =>
      if inbound && cfg.mode.Connect? then ToFail(sh) else Move(sh.(handed := sh.handed + 1), Done)
  }

  /** Inside the body of closeOnce. */
  predicate InOnce(pc: Pc)
  {
    BeforeClose(pc) || AfterClose(pc)
  }

  predicate BeforeClose(pc: Pc)
  {
    pc.FailCheck? || pc.FailMove? || pc.FailClose? || pc.CloseCheck? || pc.CloseMove? || pc.CloseFix? || pc.ClosePc?
  }

  predicate AfterClose(pc: Pc)
  {
    pc.FailClosing? || pc.ClosePcWait? || pc.CloseLastCheck? || pc.CloseLastMove?
  }

  /** The state is already torn down when these run. */
  predicate NeedsTeardown(pc: Pc)
  {
    pc.FailClose? || pc.CloseFix? || pc.ClosePc? || AfterClose(pc)
  }

  predicate InTeardown(pc: Pc)
  {
    pc.FailFix? || pc.FailEnter? || pc.CloseEnter? || InOnce(pc)
  }

  function StepTeardown(sh: Shared, t: nat, pc: Pc, env: Env): Move
    requires InTeardown(pc)
  {
    match pc
    case FailFix => Move(Complete(sh, Failure), FailEnter)
    case FailEnter =>
      if sh.once.Unused? then Move(sh.(once := Running(t)), FailCheck)
      else Move(sh, if sh.once.Finished? then Done else FailEnter)
    case FailCheck => Move(sh, if sh.state.Failed? || sh.state.Closed? then FailClose else FailMove)
    case FailMove => Move(sh.(state := Moved(sh.state, Failed)), FailClose)
    case FailClose => Move(sh.(closes := sh.closes + 1), FailClosing)
    case FailClosing => Move(sh.(once := Finished), Done)
    case CloseEnter =>
      if sh.once.Unused? then Move(sh.(once := Running(t)), CloseCheck)
      else Move(sh, if sh.once.Finished? then Done else CloseEnter)
    case CloseCheck => Move(sh, if sh.state.Failed? || sh.state.Closed? then CloseFix else CloseMove)
    case CloseMove => Move(sh.(state := Moved(sh.state, Closing)), CloseFix)
    case CloseFix => Move(Complete(sh, Failure), ClosePc)
    case ClosePc => Move(sh.(closes := sh.closes + 1), ClosePcWait)
    case ClosePcWait => if env.ok then Move(sh, CloseLastCheck) else Move(sh.(once := Finished), Done)
    case CloseLastCheck => if sh.state.Closing? then Move(sh, CloseLastMove) else Move(sh.(once := Finished), Done)
    case CloseLastMove => Move(sh.(state := Moved(sh.state, Closed), once := Finished), Done)
  }

  function StepOne(cfg: Config, sh: Shared, t: nat, pc: Pc, env: Env): Move
  {
    if pc.Done? then Move(sh, Done)
    else if InSend(pc) then StepSend(cfg, sh, t, pc, env)
    else if InMsg(pc) then StepMsg(cfg, sh, pc, env)
    else if InPay(pc) then StepPay(cfg, sh, pc, env)
    else if InTeardown(pc) then StepTeardown(sh, t, pc, env)
    else StepEnter(sh, pc)
  }

  // ---------- runs ----------

  /** Callbacks and method calls that may start at any time. An empty fingerprint
      stands for a description without one; `flushed` is false if a held-back
      candidate was refused, which ends the call early. */
  datatype Op =
    | Attach(channel: nat) | ControlOpened | SetLocal(fingerprint: text) | SetRemote(fingerprint: text, flushed: bool)
    | ControlMessage(data: Option<A.Message>) | OpenStream | InboundChannel | ConnectionLost | FailCall | CloseCall

  function Entry(op: Op): Pc
  {
    match op
    case Attach(c) => AttachControl(c)
    case ControlOpened => OpenPublish
    case SetLocal(fp) => LocalPublish(fp)
    case SetRemote(fp, flushed) => RemotePublish(fp, flushed)
    case ControlMessage(d) => MsgCheck(d)
    case OpenStream => PayCheckState(false)
    case InboundChannel => PayCheckState(true)
    case ConnectionLost => GuardCheck
    case FailCall => FailFix
    case CloseCall => CloseEnter
  }

  datatype Sys = Sys(sh: Shared, pcs: seq<Pc>)

  datatype Event = Spawn(op: Op) | Run(t: nat, env: Env)

  function Next(cfg: Config, s: Sys, e: Event): Sys
  {
    match e
    case Spawn(op) => Sys(if op.FailCall? then s.sh.(failEntered := true) else s.sh, s.pcs + [Entry(op)])
    case Run(t, env) =>
      if t < |s.pcs| then
        var r := StepOne(cfg, s.sh, t, s.pcs[t], env);
        Sys(r.sh, s.pcs[t := r.pc])
      else s
  }

  /** NewSession, given a fresh authenticator. */
  function Initial(auth: A.Auth): Sys
  {
    Sys(Shared(Signaling, None, false, [], [], false, false, Pending, auth, Unused, None, 0, 0, 0, 0, false), [])
  }

  ghost predicate Fresh(auth: A.Auth)
  {
    auth.state.Init? && !auth.bound && auth.keys.None?
  }

  function RunAll(cfg: Config, auth: A.Auth, events: seq<Event>): Sys
  {
    if events == [] then Initial(auth)
    else Next(cfg, RunAll(cfg, auth, events[..|events| - 1]), events[|events| - 1])
  }
}
