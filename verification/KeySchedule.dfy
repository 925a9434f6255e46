/** Transcript, key derivation and confirmation tags. Hash-like primitives are
    constructors of `Term`, hence injective; everything fed to SHA-256 stays a
    concrete byte string. */
module KeySchedule {
  import opened Bytes
  import opened PrimeGroup

  datatype Term =
    | Raw(bytes: seq<byte>)
    | Sha256(input: seq<byte>)
    | Argon2id(password: seq<byte>, salt: Term, time: nat, memory: nat, threads: nat, keyLen: nat)
    | Join(left: Term, right: Term)
    | HmacSha256(key: Term, message: Term)
    | HkdfExpand(prk: Term, info: string, length: nat)
  {
    /** Length in bytes. */
    function Len(): nat
    {
      match this
      case Raw(b) => |b|
      case Sha256(_) => 32
      case Argon2id(_, _, _, _, _, n) => n
      case Join(l, r) => l.Len() + r.Len()
      case HmacSha256(_, _) => 32
      case HkdfExpand(_, _, n) => n
    }
  }

  datatype Role = Initiator | Responder

  /** Everything the two sides must agree on. */
  datatype View = View(
    scheme: text,
    sessionId: text,
    initiatorFingerprint: text,
    responderFingerprint: text,
    initiatorShare: Point,
    responderShare: Point,
    secret: seq<byte>,
    shared: Point)

  datatype Keys = Keys(transcript: Term, sessionKey: Term, initiatorConfirm: Term, responderConfirm: Term)

  const ConnectRole: text := Ascii("connect")
  const ExposeRole: text := Ascii("expose")
  const TranscriptLabel: text := Ascii("rtc2tcp-auth/transcript/v2")
  const PairingSaltLabel: seq<byte> := Ascii("rtc2tcp/m2/pairing-salt/v1")
  const SessionKeyInfo: string := "rtc2tcp/m2/session-key/v1"
  const InitiatorInfo: string := "rtc2tcp/m2/confirm-key/initiator/v1"
  const ResponderInfo: string := "rtc2tcp/m2/confirm-key/responder/v1"

  function TranscriptFields(v: View): seq<seq<byte>>
  {
    [TranscriptLabel, v.scheme, v.sessionId, ConnectRole, ExposeRole,
     v.initiatorFingerprint, v.responderFingerprint, v.initiatorShare, v.responderShare]
  }

  function Transcript(v: View): Term
  {
    Sha256(EncodeFields(TranscriptFields(v)))
  }

  function PairingMix(secret: seq<byte>, sessionId: text): Term
  {
    Argon2id(secret, Sha256(PairingSaltLabel + sessionId), 1, 8 * 1024, 1, 32)
  }

  /** HKDF-Extract is HMAC keyed by the salt (section 2.2 of RFC 5869). */
  function Prk(v: View): Term
  {
    HmacSha256(Transcript(v), Join(Raw(v.shared), PairingMix(v.secret, v.sessionId)))
  }

  function Tag(v: View, role: Role): Term
  {
    var info := if role.Initiator? then InitiatorInfo else ResponderInfo;
    HmacSha256(HkdfExpand(Prk(v), info, 32), Transcript(v))
  }

  function Derive(v: View): Keys
  {
    Keys(Transcript(v), HkdfExpand(Prk(v), SessionKeyInfo, 32), Tag(v, Initiator), Tag(v, Responder))
  }

  /** A MAC under a confirmation key, whichever view the key came from. */
  predicate IsConfirmation(t: Term)
  {
    && t.HmacSha256?
    && t.key.HkdfExpand?
    && (t.key.info == InitiatorInfo || t.key.info == ResponderInfo)
  }

  lemma InfosDiffer()
    ensures InitiatorInfo != ResponderInfo
    ensures SessionKeyInfo != InitiatorInfo && SessionKeyInfo != ResponderInfo
  {
    assert InitiatorInfo[23] != ResponderInfo[23];
  }

  lemma TranscriptBinds(v: View, w: View)
    requires Transcript(v) == Transcript(w)
    ensures v == w.(secret := v.secret, shared := v.shared)
  {
    var f, g := TranscriptFields(v), TranscriptFields(w);
    EncodeFieldsInjective(f, g);
    assert f[1] == g[1] && f[2] == g[2] && f[5] == g[5] && f[6] == g[6] && f[7] == g[7] && f[8] == g[8];
  }

  /** A confirmation tag pins its role and the whole view, hence every key. */
  lemma TagsBindViews(v: View, w: View, r: Role, s: Role)
    requires Tag(v, r) == Tag(w, s)
    ensures r == s && v == w && Derive(v) == Derive(w)
  {
    InfosDiffer();
    TranscriptBinds(v, w);
  }

  /** So does the session key: no two views share one. */
  lemma SessionKeyBindsView(v: View, w: View)
    requires Derive(v).sessionKey == Derive(w).sessionKey
    ensures v == w
  {
    TranscriptBinds(v, w);
  }

  /** Conversely the three derived values of one view are three different terms,
      each 32 bytes long. */
  lemma KeysSeparated(v: View)
    ensures Tag(v, Initiator) != Tag(v, Responder)
    ensures Derive(v).sessionKey != Derive(v).initiatorConfirm.key
    ensures Derive(v).sessionKey != Derive(v).responderConfirm.key
    ensures Derive(v).sessionKey.Len() == 32
    ensures Derive(v).initiatorConfirm.Len() == 32 == Derive(v).responderConfirm.Len()
    ensures IsConfirmation(Tag(v, Initiator)) && IsConfirmation(Tag(v, Responder))
  {
    InfosDiffer();
  }

  /** The code's transcript: nine length-prefixed writes into a hash. `v` is the
      view these arguments belong to. */
  method BuildTranscript(scheme: text, sessionId: text, initiatorRole: text, responderRole: text,
                         initiatorFingerprint: text, responderFingerprint: text,
                         initiatorShare: Point, responderShare: Point, ghost v: View)
    returns (t: Term)
    requires v == View(scheme, sessionId, initiatorFingerprint, responderFingerprint,
                       initiatorShare, responderShare, v.secret, v.shared)
    requires initiatorRole == ConnectRole && responderRole == ExposeRole
    ensures t == Transcript(v)
  {
    var h := new ByteWriter();
    ghost var none: seq<seq<byte>> := [];
    ghost var a := WriteLenPrefixed(h, TranscriptLabel, none);
    ghost var b := WriteFour(h, scheme, sessionId, initiatorRole, responderRole, a);
    ghost var c := WriteFour(h, initiatorFingerprint, responderFingerprint, initiatorShare, responderShare, b);
    assert c == TranscriptFields(v);
    t := Sha256(h.out);
  }

  method WriteFour(h: ByteWriter, p: seq<byte>, q: seq<byte>, r: seq<byte>, s: seq<byte>, ghost fields: seq<seq<byte>>)
    returns (ghost extended: seq<seq<byte>>)
    requires h.out == EncodeFields(fields)
    modifies h
    ensures extended == fields + [p, q, r, s] && h.out == EncodeFields(extended)
  {
    extended := WriteLenPrefixed(h, p, fields);
    extended := WriteLenPrefixed(h, q, extended);
    extended := WriteLenPrefixed(h, r, extended);
    extended := WriteLenPrefixed(h, s, extended);
  }

  /** Argon2id, HKDF and the two MACs over a finished transcript. */
  method DeriveKeys(t: Term, shared: Point, secret: seq<byte>, sessionId: text, ghost v: View)
    returns (sessionKey: Term, initiatorConfirm: Term, responderConfirm: Term)
    requires t == Transcript(v) && shared == v.shared && secret == v.secret && sessionId == v.sessionId
    ensures Keys(t, sessionKey, initiatorConfirm, responderConfirm) == Derive(v)
  {
    var pairingMix := Argon2id(secret, Sha256(PairingSaltLabel + sessionId), 1, 8 * 1024, 1, 32);
    var prk := HmacSha256(t, Join(Raw(shared), pairingMix));
    sessionKey := HkdfExpand(prk, SessionKeyInfo, 32);
    var kInit := HkdfExpand(prk, InitiatorInfo, 32);
    var kResp := HkdfExpand(prk, ResponderInfo, 32);
    initiatorConfirm := HmacSha256(kInit, t);
    responderConfirm := HmacSha256(kResp, t);
  }
}
