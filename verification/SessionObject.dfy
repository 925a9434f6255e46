/** The session object: its mutex-guarded fields, its state machine and its
    authenticator, with one method per lock region. Each method is proved to make
    exactly the step that SessionGate interleaves. */
module SessionObject {
  import opened Basics
  import opened Bytes
  import opened SessionState
  import opened SessionGate
  import A = Authenticator
  import opened AuthenticatorObject

  class Session {
    const cfg: Config
    const authenticator: InteractiveAuthenticator
    const machine: StateMachine
    var control: Option<nat>
    var controlOpen: bool
    var localFingerprint: text
    var remoteFingerprint: text
    var authBound: bool
    var authStarted: bool
    var result: AuthResult
    var once: Once
    ghost var claimer: Option<nat>
    ghost var hellos: nat
    ghost var handed: nat
    ghost var closes: nat
    ghost var writes: nat
    ghost var failEntered: bool

    ghost function Snapshot(): Shared
      reads this, authenticator, machine
    {
      Shared(machine.state, control, controlOpen, localFingerprint, remoteFingerprint, authBound, authStarted, result,
             authenticator.Snapshot(), once, claimer, hellos, handed, closes, writes, failEntered)
    }

    /** NewSession demands a state machine in SIGNALING. */
    constructor (cfg: Config, authenticator: InteractiveAuthenticator, machine: StateMachine)
      requires machine.state.Signaling? && authenticator.suite == cfg.suite
      ensures this.cfg == cfg && this.authenticator == authenticator && this.machine == machine
      ensures Snapshot() == Initial(authenticator.Snapshot()).sh
    {
      this.cfg, this.authenticator, this.machine := cfg, authenticator, machine;
      control, controlOpen, localFingerprint, remoteFingerprint := None, false, [], [];
      authBound, authStarted, result, once := false, false, Pending, Unused;
      claimer, hellos, handed, closes, writes, failEntered := None, 0, 0, 0, 0, false;
    }

    method Attach(channel: nat) returns (attached: bool)
      modifies this`control, this`failEntered
      ensures Move(Snapshot(), if attached then Done else FailFix) == StepEnter(old(Snapshot()), AttachControl(channel))
    {
      if control.Some? && control.value != channel {
        failEntered := true;
        return false;
      }
      control := Some(channel);
      return true;
    }

    method PublishOpen()
      modifies this`controlOpen
      ensures Snapshot() == StepEnter(old(Snapshot()), OpenPublish).sh
    {
      controlOpen := true;
    }

    method PublishLocal(fingerprint: text)
      requires fingerprint != []
      modifies this`localFingerprint
      ensures Snapshot() == StepEnter(old(Snapshot()), LocalPublish(fingerprint)).sh
    {
      localFingerprint := fingerprint;
    }

    method PublishRemote(fingerprint: text)
      requires fingerprint != []
      modifies this`remoteFingerprint
      ensures Snapshot() == StepEnter(old(Snapshot()), RemotePublish(fingerprint, true)).sh
    {
      remoteFingerprint := fingerprint;
    }

    /** bindAuthenticator: idempotent once bound. */
    method BindAuthenticator(draw: A.Draw) returns (outcome: BindOutcome)
      requires authenticator.suite == cfg.suite
      modifies this`authBound, authenticator
      ensures BindMove(Snapshot(), outcome) == BindRegion(cfg, old(Snapshot()), draw)
    {
      if control.None? {
        return Refused;
      }
      if authBound {
        return Attached;
      }
      if localFingerprint == [] || remoteFingerprint == [] {
        return NotReady;
      }
      var err := authenticator.Bind(A.Material(cfg.sessionId, cfg.mode, localFingerprint, remoteFingerprint), draw);
      if err.Some? {
        return Refused;
      }
      authBound := true;
      return Attached;
    }

    /** The second lock region of maybeSendAuth: at most one activity claims hello. */
    method ClaimHello(ghost t: nat) returns (claimed: bool)
      modifies this`authStarted, this`claimer
      ensures Move(Snapshot(), if claimed then SendStart else Done)
           == StepSend(cfg, old(Snapshot()), t, SendClaim, Env(true, A.Draw(0, A.BasePoint)))
    {
      if !cfg.mode.Connect? || authStarted {
        return false;
      }
      authStarted := true;
      claimer := Some(t);
      return true;
    }

    /** completeAuthResult: the first caller decides. */
    method CompleteAuthResult(r: AuthResult)
      requires !r.Pending?
      modifies this`result, this`writes
      ensures Snapshot() == Complete(old(Snapshot()), r)
    {
      if !result.Pending? {
        return;
      }
      result := r;
      writes := writes + 1;
    }

    method IsAuthenticated() returns (b: bool)
      ensures b <==> Snapshot().result.Success?
    {
      return result.Success?;
    }

    /** prepareInboundPayloadChannel and the checks of OpenStreamChannel. */
    method EnterStreaming() returns (ok: bool)
      modifies machine
      ensures ok <==> (old(machine.state).Authenticated? || old(machine.state).Streaming?) && old(result).Success?
      ensures Snapshot() == if ok then old(Snapshot()).(state := Streaming) else old(Snapshot())
    {
      var gate := machine.IsOneOf([Authenticated, Streaming]);
      if !gate {
        return false;
      }
      var authenticated := IsAuthenticated();
      if !authenticated {
        return false;
      }
      ok := machine.Transition(Streaming);
    }
  }
}
