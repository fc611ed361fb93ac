/** Delegation tokens and the recursive validation of their proofs: src/aries/identity/ucan.py lines 96-336. */
module Ucan {
  import opened Wrappers
  import opened Bits
  import opened Capabilities
  import Did

  datatype Token = Token(issuer: string, audience: string, capabilities: seq<Capability>, proofs: seq<string>,
                         notBefore: real, expiration: real)
  {
    predicate Expired(now: real) { expiration > 0.0 && now > expiration }

    predicate Active(now: real) { now >= notBefore && !Expired(now) }
  }

  /** The parts that validation only calls: reading a token, did_to_public_key (Did.DidToPublicKey), checking a
      token's signature under a key, and its content id. */
  datatype Codec = Codec(decode: string -> Option<Token>, keyOf: string -> Result<seq<Byte>, Did.Error>, signed: (seq<Byte>, string) -> bool, cid: string -> string)

  datatype Error =
    | TooDeep
    | Malformed(token: string)
    | BadIssuer(issuer: string)
    | BadSignature(token: string)
    | IsExpired(at: real)
    | NotYetActive(from: real)
    | IssuerRevoked(did: string)
    | AudienceRevoked(did: string)
    | Unsatisfied(capability: Capability)
    | WrongRoot(issuer: string)
    | ProofMissing(cid: string)
    | ProofMalformed(cid: string)
    | AudienceMismatch(cid: string)
    | NotAttenuated(capability: Capability, cid: string)

  datatype Verdict = Accepted | Rejected(error: Error)

  /** What a validation reads besides the token: the store, the expected root, the revocations, the clock. */
  datatype Setting = Setting(codec: Codec, tokens: map<string, string>, root: string, revoked: seq<string>, now: real)

  // ---------------------------------------------------------------- validation

  /** UCANToken.verify */
  function Verify(codec: Codec, token: string): Result<Token, Error> {
    match codec.decode(token)
    case None => Err(Malformed(token))
    case Some(ucan) =>
      match codec.keyOf(ucan.issuer)
      case Err(_) => Err(BadIssuer(ucan.issuer))
      case Ok(key) => if codec.signed(key, token) then Ok(ucan) else Err(BadSignature(token))
  }

  /** The first capability that no parent capability covers. */
  function FirstUncovered(capabilities: seq<Capability>, parents: seq<Capability>): (r: Option<Capability>)
    ensures r.None? <==> forall c :: c in capabilities ==> Grants(parents, c)
    ensures r.Some? ==> r.value in capabilities && !Grants(parents, r.value)
  {
    if capabilities == [] then None
    else if !Grants(parents, capabilities[0]) then Some(capabilities[0])
    else
      assert forall c :: c in capabilities ==> c == capabilities[0] || c in capabilities[1..];
      FirstUncovered(capabilities[1..], parents)
  }

  /** _validate_chain */
  function Validate(s: Setting, token: string, required: Option<Capability>, depth: nat): Verdict
    decreases 17 - depth, 1, 0
  {
    if depth > 16 then Rejected(TooDeep)
    else
      match Verify(s.codec, token)
      case Err(e) => Rejected(e)
      case Ok(ucan) =>
        if !ucan.Active(s.now) then
          Rejected(if ucan.Expired(s.now) then IsExpired(ucan.expiration) else NotYetActive(ucan.notBefore))
        else if ucan.issuer in s.revoked then Rejected(IssuerRevoked(ucan.issuer))
        else if ucan.audience in s.revoked then Rejected(AudienceRevoked(ucan.audience))
        else if required.Some? && !Grants(ucan.capabilities, required.value) then Rejected(Unsatisfied(required.value))
        else if ucan.proofs == [] then
          if ucan.issuer != s.root then Rejected(WrongRoot(ucan.issuer)) else Accepted
        else ValidateProofs(s, ucan, ucan.proofs, depth)
  }

  /** The loop over the proofs, from those still to check. */
  function ValidateProofs(s: Setting, ucan: Token, proofs: seq<string>, depth: nat): Verdict
    requires depth <= 16
    decreases 17 - depth, 0, |proofs|
  {
    if proofs == [] then Accepted
    else
      var cid := proofs[0];
      if cid !in s.tokens then Rejected(ProofMissing(cid))
      else
        match s.codec.decode(s.tokens[cid])
        case None => Rejected(ProofMalformed(cid))
        case Some(proof) =>
          if proof.audience != ucan.issuer then Rejected(AudienceMismatch(cid))
          else
            match FirstUncovered(ucan.capabilities, proof.capabilities)
            case Some(c) => Rejected(NotAttenuated(c, cid))
            case None =>
              match Validate(s, s.tokens[cid], None, depth + 1)
              case Rejected(e) => Rejected(e)
              case Accepted => ValidateProofs(s, ucan, proofs[1..], depth)
  }

  // ---------------------------------------------------------------- proof paths

  /** parent is the stored text of one of the proofs that token names. */
  ghost predicate Proves(s: Setting, parent: string, token: string) {
    s.codec.decode(token).Some? &&
    exists cid :: cid in s.codec.decode(token).value.proofs && cid in s.tokens && s.tokens[cid] == parent
  }

  /** A walk from a token to one of its proofs, to one of that proof's proofs, and so on. */
  ghost predicate Path(s: Setting, path: seq<string>) {
    path != [] && (|path| > 1 ==> Proves(s, path[1], path[0]) && Path(s, path[1..]))
  }

  ghost predicate PathFrom(s: Setting, token: string, path: seq<string>) { path != [] && path[0] == token && Path(s, path) }

  function Last(path: seq<string>): string
    requires path != []
  {
    path[|path| - 1]
  }

  function StoredToken(s: Setting, cid: string): Option<Token> {
    if cid in s.tokens then s.codec.decode(s.tokens[cid]) else None
  }

  /** The proof named cid is stored, was issued to ucan's issuer, and covers every capability of ucan. */
  ghost predicate Linked(s: Setting, ucan: Token, cid: string) {
    StoredToken(s, cid).Some? &&
    var proof := StoredToken(s, cid).value;
    proof.audience == ucan.issuer && forall c :: c in ucan.capabilities ==> Grants(proof.capabilities, c)
  }

  /** All that is asked of one token on a path: it reads, its issuer's key reads and has signed it, it is active, its
      parties are not revoked, without proofs it is the root's own, and each of its proofs is linked. */
  ghost predicate Sound(s: Setting, token: string) {
    s.codec.decode(token).Some? &&
    var ucan := s.codec.decode(token).value;
    s.codec.keyOf(ucan.issuer).Ok? && s.codec.signed(s.codec.keyOf(ucan.issuer).value, token) &&
    ucan.notBefore <= s.now && (ucan.expiration > 0.0 ==> s.now <= ucan.expiration) &&
    ucan.issuer !in s.revoked && ucan.audience !in s.revoked &&
    (ucan.proofs == [] ==> ucan.issuer == s.root) &&
    (forall cid :: cid in ucan.proofs ==> Linked(s, ucan, cid))
  }

  ghost predicate Satisfies(s: Setting, token: string, required: Option<Capability>) {
    required.Some? ==> s.codec.decode(token).Some? && Grants(s.codec.decode(token).value.capabilities, required.value)
  }

  /** The error e names a real defect of a verified token. */
  ghost predicate DefectOf(s: Setting, ucan: Token, required: Option<Capability>, e: Error) {
    match e
    case IsExpired(t) => t == ucan.expiration && t > 0.0 && s.now > t
    case NotYetActive(t) => t == ucan.notBefore && s.now < t && !(ucan.expiration > 0.0 && s.now > ucan.expiration)
    case IssuerRevoked(d) => d == ucan.issuer && d in s.revoked
    case AudienceRevoked(d) => d == ucan.audience && d in s.revoked
    case Unsatisfied(c) => required == Some(c) && !Grants(ucan.capabilities, c)
    case WrongRoot(d) => d == ucan.issuer && d != s.root && ucan.proofs == []
    case ProofMissing(cid) => cid in ucan.proofs && cid !in s.tokens
    case ProofMalformed(cid) => cid in ucan.proofs && cid in s.tokens && StoredToken(s, cid).None?
    case AudienceMismatch(cid) =>
      cid in ucan.proofs && StoredToken(s, cid).Some? && StoredToken(s, cid).value.audience != ucan.issuer
    case NotAttenuated(c, cid) =>
      cid in ucan.proofs && StoredToken(s, cid).Some? && c in ucan.capabilities && !Grants(StoredToken(s, cid).value.capabilities, c)
    case _ => false
  }

  /** The error e names a real defect of the token found at this depth. */
  ghost predicate Defect(s: Setting, token: string, required: Option<Capability>, depth: nat, e: Error) {
    if e.TooDeep? then depth > 16
    else if s.codec.decode(token).None? then e == Malformed(token)
    else
      var ucan := s.codec.decode(token).value;
      if s.codec.keyOf(ucan.issuer).Err? then e == BadIssuer(ucan.issuer)
      else if !s.codec.signed(s.codec.keyOf(ucan.issuer).value, token) then e == BadSignature(token)
      else DefectOf(s, ucan, required, e)
  }

  /** The text reads as ucan, and the key of its issuer has signed it. */
  ghost predicate Authentic(codec: Codec, token: string, ucan: Token) {
    codec.decode(token) == Some(ucan) && codec.keyOf(ucan.issuer).Ok? && codec.signed(codec.keyOf(ucan.issuer).value, token)
  }

  /** Verifying a text gives the token if and only if it is authentic. */
  lemma VerifyExactly(codec: Codec, token: string, ucan: Token)
    ensures Verify(codec, token) == Ok(ucan) <==>
            codec.decode(token) == Some(ucan) && codec.keyOf(ucan.issuer).Ok? &&
            codec.signed(codec.keyOf(ucan.issuer).value, token)
  {
  }

  lemma DefectIsUnsound(s: Setting, token: string, required: Option<Capability>, depth: nat, e: Error)
    requires Defect(s, token, required, depth, e)
    ensures depth > 16 || !Sound(s, token) || !Satisfies(s, token, required)
  {
  }

  // ---------------------------------------------------------------- acceptance, exactly

  lemma {:induction false} ProofsAccepted(s: Setting, ucan: Token, proofs: seq<string>, depth: nat, cid: string)
    requires depth <= 16 && ValidateProofs(s, ucan, proofs, depth).Accepted? && cid in proofs
    ensures Linked(s, ucan, cid) && Validate(s, s.tokens[cid], None, depth + 1).Accepted?
    decreases |proofs|
  {
    if cid != proofs[0] { ProofsAccepted(s, ucan, proofs[1..], depth, cid); }
  }

  lemma VerifyDecodes(codec: Codec, token: string)
    ensures Verify(codec, token).Ok? ==> codec.decode(token) == Some(Verify(codec, token).value)
  {
  }

  lemma AcceptedHead(s: Setting, token: string, required: Option<Capability>, depth: nat)
    requires Validate(s, token, required, depth).Accepted?
    ensures depth <= 16 && Sound(s, token) && Satisfies(s, token, required) && Verify(s.codec, token).Ok?
    ensures forall cid :: cid in Verify(s.codec, token).value.proofs ==>
              cid in s.tokens && Validate(s, s.tokens[cid], None, depth + 1).Accepted?
  {
    var ucan := Verify(s.codec, token).value;
    forall cid | cid in ucan.proofs
      ensures Linked(s, ucan, cid) && Validate(s, s.tokens[cid], None, depth + 1).Accepted?
    {
      ProofsAccepted(s, ucan, ucan.proofs, depth, cid);
    }
  }

  lemma {:induction false} AcceptedPath(s: Setting, token: string, required: Option<Capability>, depth: nat, path: seq<string>)
    requires Validate(s, token, required, depth).Accepted? && PathFrom(s, token, path)
    ensures |path| + depth <= 17 && Sound(s, Last(path)) && Satisfies(s, token, required)
    decreases |path|
  {
    hide Sound, Satisfies, Verify, Validate;
    AcceptedHead(s, token, required, depth);
    VerifyDecodes(s.codec, token);
    if |path| > 1 { AcceptedPath(s, path[1], None, depth + 1, path[1..]); }
  }

  /** Every rejection names a real defect of a token on some path. */
  lemma {:induction false} RejectionExplained(s: Setting, token: string, required: Option<Capability>, depth: nat)
    returns (path: seq<string>)
    requires Validate(s, token, required, depth).Rejected?
    ensures PathFrom(s, token, path)
    ensures Defect(s, Last(path), if |path| == 1 then required else None, |path| - 1 + depth, Validate(s, token, required, depth).error)
    decreases 17 - depth, 1, 0
  {
    hide Grants;
    path := [token];
    if depth <= 16 && Verify(s.codec, token).Ok? {
      var ucan := Verify(s.codec, token).value;
      var v := Validate(s, token, required, depth);
      if ucan.proofs != [] && v == ValidateProofs(s, ucan, ucan.proofs, depth) {
        path := ProofRejectionExplained(s, token, ucan, ucan.proofs, required, depth);
      }
    }
  }

  lemma {:induction false} ProofRejectionExplained(s: Setting, token: string, ucan: Token, proofs: seq<string>,
                                                   required: Option<Capability>, depth: nat) returns (path: seq<string>)
    requires depth <= 16 && Verify(s.codec, token) == Ok(ucan) && (forall cid :: cid in proofs ==> cid in ucan.proofs)
    requires ValidateProofs(s, ucan, proofs, depth).Rejected?
    ensures PathFrom(s, token, path)
    ensures Defect(s, Last(path), if |path| == 1 then required else None, |path| - 1 + depth,
                   ValidateProofs(s, ucan, proofs, depth).error)
    decreases 17 - depth, 0, |proofs|
  {
    VerifyExactly(s.codec, token, ucan);
    hide Verify, Grants;
    path := [token];
    var cid := proofs[0];
    if Linked(s, ucan, cid) {
      if Validate(s, s.tokens[cid], None, depth + 1).Rejected? {
        var rest := RejectionExplained(s, s.tokens[cid], None, depth + 1);
        path := [token] + rest;
        assert path[1..] == rest;
      } else {
        path := ProofRejectionExplained(s, token, ucan, proofs[1..], required, depth);
      }
    }
  }

  /** A chain is accepted exactly when its head holds the required capability and every path of proofs
      has at most 17 tokens, each of them sound. */
  lemma {:induction false} AcceptedExactly(s: Setting, token: string, required: Option<Capability>)
    ensures Validate(s, token, required, 0).Accepted? <==>
            Satisfies(s, token, required) &&
            forall path :: PathFrom(s, token, path) ==> |path| <= 17 && Sound(s, Last(path))
  {
    if Validate(s, token, required, 0).Accepted? {
      AcceptedHead(s, token, required, 0);
      forall path | PathFrom(s, token, path) ensures |path| <= 17 && Sound(s, Last(path)) {
        AcceptedPath(s, token, required, 0, path);
      }
    } else {
      var path := RejectionExplained(s, token, required, 0);
      DefectIsUnsound(s, Last(path), if |path| == 1 then required else None, |path| - 1, Validate(s, token, required, 0).error);
    }
  }

  /** So every token on every path of an accepted chain reads, names an issuer whose key reads, and is signed by it. */
  lemma AcceptedIsSigned(s: Setting, token: string, required: Option<Capability>, path: seq<string>)
    requires Validate(s, token, required, 0).Accepted? && PathFrom(s, token, path)
    ensures s.codec.decode(Last(path)).Some? && s.codec.keyOf(s.codec.decode(Last(path)).value.issuer).Ok?
    ensures s.codec.signed(s.codec.keyOf(s.codec.decode(Last(path)).value.issuer).value, Last(path))
  {
    hide Validate, Path;
    AcceptedPath(s, token, required, 0, path);
  }

  // ---------------------------------------------------------------- what an accepted capability rests on

  ghost predicate Holds(s: Setting, token: string, c: Capability) {
    s.codec.decode(token).Some? && Grants(s.codec.decode(token).value.capabilities, c)
  }

  ghost predicate WellFormedToken(s: Setting, token: string) {
    s.codec.decode(token).Some? ==>
      forall c :: c in s.codec.decode(token).value.capabilities ==> WellFormed(c.resource)
  }

  /** The capabilities of other absorb each capability of token. */
  ghost predicate AbsorbedBy(s: Setting, token: string, other: string) {
    s.codec.decode(token).Some? && s.codec.decode(other).Some? &&
    forall t :: t in s.codec.decode(token).value.capabilities ==> Absorbs(s.codec.decode(other).value.capabilities, t)
  }

  /** What one readable token holds another one holds too, in particular its proof or the end of its proof path, if
      and only if the other's capabilities absorb those of the one. */
  lemma HoldsExactly(s: Setting, token: string, other: string)
    requires s.codec.decode(token).Some? && s.codec.decode(other).Some?
    ensures AbsorbedBy(s, token, other) <==> forall c :: Holds(s, token, c) ==> Holds(s, other, c)
  {
    hide Absorbs, Grants;
    var held, others := s.codec.decode(other).value.capabilities, s.codec.decode(token).value.capabilities;
    AbsorbsExactly(held, others);
    if AbsorbedBy(s, token, other) {
      forall c | Holds(s, token, c) ensures Holds(s, other, c) {
        assert Grants(others, c);
      }
    } else {
      var c :| Grants(others, c) && !Grants(held, c);
      assert Holds(s, token, c) && !Holds(s, other, c);
    }
  }

  /** Every step of the path is absorbed by the next. */
  ghost predicate AbsorbedAlong(s: Setting, path: seq<string>) {
    |path| > 1 ==> AbsorbedBy(s, path[0], path[1]) && AbsorbedAlong(s, path[1..])
  }

  /** Sound proof steps between well-formed tokens are absorbed. */
  lemma WellFormedAbsorbed(s: Setting, token: string, parent: string)
    requires Sound(s, token) && Proves(s, parent, token) && WellFormedToken(s, token) && WellFormedToken(s, parent)
    ensures AbsorbedBy(s, token, parent)
  {
    hide Absorbs, Grants;
    VerifyDecodes(s.codec, token);
    var ucan := s.codec.decode(token).value;
    var cid :| cid in ucan.proofs && cid in s.tokens && s.tokens[cid] == parent;
    assert Linked(s, ucan, cid);
    forall t | t in ucan.capabilities ensures Absorbs(s.codec.decode(parent).value.capabilities, t) {
      WellFormedAbsorbs(s.codec.decode(parent).value.capabilities, t);
    }
  }

  lemma {:induction false} WellFormedAbsorbedAlong(s: Setting, token: string, required: Option<Capability>, depth: nat, path: seq<string>)
    requires Validate(s, token, required, depth).Accepted? && PathFrom(s, token, path)
    requires forall t :: t in path ==> WellFormedToken(s, t)
    ensures AbsorbedAlong(s, path)
    decreases |path|
  {
    AcceptedHead(s, token, required, depth);
    if |path| > 1 {
      WellFormedAbsorbed(s, token, path[1]);
      WellFormedAbsorbedAlong(s, path[1], None, depth + 1, path[1..]);
    }
  }

  lemma {:induction false} HeldAlongPath(s: Setting, token: string, required: Option<Capability>, depth: nat, path: seq<string>, c: Capability)
    requires Validate(s, token, required, depth).Accepted? && PathFrom(s, token, path) && Holds(s, token, c)
    requires AbsorbedAlong(s, path)
    ensures Holds(s, Last(path), c)
    ensures s.codec.decode(Last(path)).value.proofs == [] ==> s.codec.decode(Last(path)).value.issuer == s.root
    decreases |path|
  {
    hide AbsorbedBy, Holds;
    AcceptedHead(s, token, required, depth);
    VerifyDecodes(s.codec, token);
    if |path| > 1 {
      StepHolds(s, token, path[1], c);
      HeldAlongPath(s, path[1], None, depth + 1, path[1..], c);
    }
  }

  lemma StepHolds(s: Setting, token: string, parent: string, c: Capability)
    requires AbsorbedBy(s, token, parent) && Holds(s, token, c)
    ensures Holds(s, parent, c)
  {
    HoldsExactly(s, token, parent);
  }

  /** The required capability of an accepted chain is covered by a capability of every token on every path that is
      absorbed step by step, as every path of well-formed tokens is, and a path that cannot go on has reached a token
      of the expected root. */
  lemma {:induction false} RequiredIsHeld(s: Setting, token: string, required: Capability, path: seq<string>)
    requires Validate(s, token, Some(required), 0).Accepted? && PathFrom(s, token, path)
    requires AbsorbedAlong(s, path) || forall t :: t in path ==> WellFormedToken(s, t)
    ensures Holds(s, Last(path), required)
    ensures s.codec.decode(Last(path)).value.proofs == [] ==> s.codec.decode(Last(path)).value.issuer == s.root
  {
    hide Validate, Verify, Sound, Path, AbsorbedAlong, WellFormedToken;
    AcceptedHead(s, token, Some(required), 0);
    if !AbsorbedAlong(s, path) { WellFormedAbsorbedAlong(s, token, Some(required), 0, path); }
    HeldAlongPath(s, token, Some(required), 0, path, required);
  }

  /** A condition is needed: a chain whose middle token grants all below x, under a root that grants only what lies
      below the pattern itself, is accepted for x/y, which the root's token does not grant. */
  lemma RootNeedNotGrant(s: Setting, leafText: string, middleText: string, rootText: string, device: string, agent: string, guest: string,
                         ability: string)
    requires var rootId, middleId := s.codec.cid(rootText), s.codec.cid(middleText);
             Authentic(s.codec, rootText, Token(s.root, device, [Capability("x/*/*", ability)], [], 0.0, 0.0)) &&
             Authentic(s.codec, middleText, Token(device, agent, [Capability("x/*", ability)], [rootId], 0.0, 0.0)) &&
             Authentic(s.codec, leafText, Token(agent, guest, [Capability("x/y", ability)], [middleId], 0.0, 0.0)) &&
             rootId in s.tokens && s.tokens[rootId] == rootText && middleId in s.tokens && s.tokens[middleId] == middleText &&
             s.now >= 0.0 && s.revoked == []
    ensures Validate(s, leafText, Some(Capability("x/y", ability)), 0).Accepted?
    ensures PathFrom(s, leafText, [leafText, middleText, rootText]) && !Holds(s, rootText, Capability("x/y", ability))
  {
    var x, y, z := Capability("x/*/*", ability), Capability("x/*", ability), Capability("x/y", ability);
    DoubledGlob();
    AttenuationReflexive(z);
    VerifyExactly(s.codec, rootText, Token(s.root, device, [x], [], 0.0, 0.0));
    VerifyExactly(s.codec, middleText, Token(device, agent, [y], [s.codec.cid(rootText)], 0.0, 0.0));
    VerifyExactly(s.codec, leafText, Token(agent, guest, [z], [s.codec.cid(middleText)], 0.0, 0.0));
    hide Covers, Verify;
    OneGrants(x, y);
    OneGrants(y, z);
    OneGrants(z, z);
    OneGrants(x, z);
    hide Grants;
    assert Validate(s, rootText, None, 2).Accepted?;
    OneProof(s, middleText, rootText, None, 1);
    OneProof(s, leafText, middleText, Some(z), 0);
    assert [leafText, middleText, rootText][1..] == [middleText, rootText] && [middleText, rootText][1..] == [rootText];
    assert Path(s, [rootText]) && Path(s, [middleText, rootText]);
  }

  lemma OneGrants(held: Capability, c: Capability)
    ensures Grants([held], c) <==> c.IsAttenuatedBy(held)
  {
    hide Covers;
    if c.IsAttenuatedBy(held) { assert c.IsAttenuatedBy([held][0]); }
  }

  /** A token with one capability and one proof is accepted on the strength of that proof. */
  lemma OneProof(s: Setting, token: string, parent: string, required: Option<Capability>, depth: nat)
    requires depth <= 16 && Verify(s.codec, token).Ok? && s.codec.decode(parent).Some?
    requires var ucan, proof := Verify(s.codec, token).value, s.codec.decode(parent).value;
             ucan.Active(s.now) && ucan.issuer !in s.revoked && ucan.audience !in s.revoked &&
             |ucan.proofs| == 1 && ucan.proofs[0] in s.tokens && s.tokens[ucan.proofs[0]] == parent &&
             (required.Some? ==> Grants(ucan.capabilities, required.value)) && proof.audience == ucan.issuer &&
             forall c :: c in ucan.capabilities ==> Grants(proof.capabilities, c)
    requires Validate(s, parent, None, depth + 1).Accepted?
    ensures Validate(s, token, required, depth).Accepted?
  {
    hide Grants, Verify;
    var ucan := Verify(s.codec, token).value;
    assert ucan.proofs[1..] == [];
    assert ValidateProofs(s, ucan, ucan.proofs[1..], depth).Accepted?;
    assert ValidateProofs(s, ucan, ucan.proofs, depth).Accepted?;
  }

  // ---------------------------------------------------------------- how acceptance depends on the setting

  ghost predicate Extends(more: map<string, string>, fewer: map<string, string>) {
    forall cid :: cid in fewer ==> cid in more && more[cid] == fewer[cid]
  }

  /** t has the same codec and root, at least the tokens and at most the revocations of s. */
  ghost predicate Relaxes(t: Setting, s: Setting) {
    t.codec == s.codec && t.root == s.root && Extends(t.tokens, s.tokens) &&
    forall d :: d in t.revoked ==> d in s.revoked
  }

  /** A chain accepted at two instants is accepted at every instant between them, also with more tokens stored
      and fewer revocations. */
  lemma {:induction false} StaysAccepted(s: Setting, later: real, t: Setting, token: string, required: Option<Capability>, depth: nat)
    requires Relaxes(t, s) && s.now <= t.now <= later
    requires Validate(s, token, required, depth).Accepted?
    requires Validate(s.(now := later), token, required, depth).Accepted?
    ensures Validate(t, token, required, depth).Accepted?
    decreases 17 - depth, 1, 0
  {
    var l := s.(now := later);
    AcceptedHead(s, token, required, depth);
    AcceptedHead(l, token, required, depth);
    var ucan := Verify(s.codec, token).value;
    if ucan.proofs != [] { ProofsStayAccepted(s, later, t, ucan, ucan.proofs, depth); }
  }

  lemma {:induction false} ProofsStayAccepted(s: Setting, later: real, t: Setting, ucan: Token, proofs: seq<string>, depth: nat)
    requires Relaxes(t, s) && s.now <= t.now <= later && depth <= 16
    requires ValidateProofs(s, ucan, proofs, depth).Accepted?
    requires ValidateProofs(s.(now := later), ucan, proofs, depth).Accepted?
    ensures ValidateProofs(t, ucan, proofs, depth).Accepted?
    decreases 17 - depth, 0, |proofs|
  {
    if proofs != [] {
      StaysAccepted(s, later, t, s.tokens[proofs[0]], None, depth + 1);
      ProofsStayAccepted(s, later, t, ucan, proofs[1..], depth);
    }
  }

  lemma {:induction false} SamePaths(s: Setting, t: Setting, path: seq<string>)
    requires t.codec == s.codec && t.tokens == s.tokens
    ensures Path(s, path) <==> Path(t, path)
    decreases |path|
  {
    if |path| > 1 {
      SamePaths(s, t, path[1..]);
      assert Proves(s, path[1], path[0]) <==> Proves(t, path[1], path[0]);
    }
  }

  ghost predicate Names(codec: Codec, token: string, did: string) {
    codec.decode(token).Some? && (codec.decode(token).value.issuer == did || codec.decode(token).value.audience == did)
  }

  /** Revoking one more identity rejects an accepted chain exactly when some path leads to a token that it
      issued or received. */
  lemma RevocationExactly(s: Setting, token: string, required: Option<Capability>, did: string)
    requires Validate(s, token, required, 0).Accepted?
    ensures Validate(s.(revoked := s.revoked + [did]), token, required, 0).Rejected? <==>
            exists path :: PathFrom(s, token, path) && Names(s.codec, Last(path), did)
  {
    hide Validate, Verify, Sound, Defect, Names, Path;
    var t := s.(revoked := s.revoked + [did]);
    if Validate(t, token, required, 0).Rejected? {
      var path := RejectionExplained(t, token, required, 0);
      SamePaths(s, t, path);
      AcceptedPath(s, token, required, 0, path);
      RevokedDefect(s, Last(path), if |path| == 1 then required else None, |path| - 1, did, Validate(t, token, required, 0).error);
    } else {
      forall path | PathFrom(s, token, path) ensures !Names(s.codec, Last(path), did) {
        SamePaths(s, t, path);
        AcceptedPath(t, token, required, 0, path);
        SoundNamesNoRevoked(t, Last(path), did);
      }
    }
  }

  lemma RevokedDefect(s: Setting, token: string, required: Option<Capability>, depth: nat, did: string, e: Error)
    requires Sound(s, token) && depth <= 16 && Satisfies(s, token, required)
    requires Defect(s.(revoked := s.revoked + [did]), token, required, depth, e)
    ensures Names(s.codec, token, did)
  {
    VerifyDecodes(s.codec, token);
    var t := s.(revoked := s.revoked + [did]);
    var ucan := Verify(s.codec, token).value;
    assert forall cid :: cid in ucan.proofs ==> Linked(s, ucan, cid);
    assert forall cid :: StoredToken(t, cid) == StoredToken(s, cid);
    hide Verify, Grants;
  }

  lemma SoundNamesNoRevoked(s: Setting, token: string, did: string)
    requires Sound(s, token) && did in s.revoked
    ensures !Names(s.codec, token, did)
  {
    VerifyDecodes(s.codec, token);
  }

  // ---------------------------------------------------------------- the store

  /** store: the new table, unchanged where decoding raises. */
  function Stored(codec: Codec, tokens: map<string, string>, token: string): map<string, string> {
    if codec.decode(token).None? then tokens else tokens[codec.cid(token) := token]
  }

  function StoredAll(codec: Codec, tokens: map<string, string>, added: seq<string>): map<string, string>
    decreases |added|
  {
    if added == [] then tokens else StoredAll(codec, Stored(codec, tokens, added[0]), added[1..])
  }

  /** Each entry is a readable token under its own content id. */
  ghost predicate ContentAddressed(codec: Codec, tokens: map<string, string>) {
    forall cid :: cid in tokens ==> codec.decode(tokens[cid]).Some? && codec.cid(tokens[cid]) == cid
  }

  ghost predicate Injective(codec: Codec) { forall s, t :: codec.cid(s) == codec.cid(t) ==> s == t }

  /** With content ids that do not collide, no sequence of stores replaces a token. */
  lemma {:induction false} StoringExtends(codec: Codec, tokens: map<string, string>, added: seq<string>)
    requires ContentAddressed(codec, tokens) && Injective(codec)
    ensures ContentAddressed(codec, StoredAll(codec, tokens, added)) && Extends(StoredAll(codec, tokens, added), tokens)
    ensures forall t :: t in added && codec.decode(t).Some? ==>
              codec.cid(t) in StoredAll(codec, tokens, added) && StoredAll(codec, tokens, added)[codec.cid(t)] == t
    decreases |added|
  {
    if added != [] {
      var first := Stored(codec, tokens, added[0]);
      StoringExtends(codec, first, added[1..]);
      assert forall t :: t in added ==> t == added[0] || t in added[1..];
      assert codec.decode(added[0]).Some? ==> codec.cid(added[0]) in first;
    }
  }

  /** So an accepted chain stays accepted, whatever is stored. */
  lemma {:induction false} StoringKeepsAccepted(s: Setting, added: seq<string>, token: string, required: Option<Capability>)
    requires ContentAddressed(s.codec, s.tokens) && Injective(s.codec)
    requires Validate(s, token, required, 0).Accepted?
    ensures Validate(s.(tokens := StoredAll(s.codec, s.tokens, added)), token, required, 0).Accepted?
  {
    StoringExtends(s.codec, s.tokens, added);
    StaysAccepted(s, s.now, s.(tokens := StoredAll(s.codec, s.tokens, added)), token, required, 0);
  }

  class UCANStore {
    var tokens: map<string, string>

    constructor ()
      ensures tokens == map[]
    {
      tokens := map[];
    }

    /** store */
    method Store(codec: Codec, token: string) returns (r: Result<string, Error>)
      requires ContentAddressed(codec, tokens)
      modifies this
      ensures ContentAddressed(codec, tokens) && tokens == Stored(codec, old(tokens), token)
      ensures tokens == if r.Ok? then old(tokens)[codec.cid(token) := token] else old(tokens)
      ensures r == if codec.decode(token).None? then Err(Malformed(token)) else Ok(codec.cid(token))
    {
      if codec.decode(token).None? { return Err(Malformed(token)); }
      var cid := codec.cid(token);
      tokens := tokens[cid := token];
      r := Ok(cid);
    }

    /** get */
    method Get(codec: Codec, cid: string) returns (r: Option<string>)
      requires ContentAddressed(codec, tokens)
      ensures r.Some? <==> cid in tokens
      ensures r.Some? ==> r.value == tokens[cid] && codec.cid(r.value) == cid
    {
      if cid in tokens { r := Some(tokens[cid]); } else { r := None; }
    }

    /** validate_chain */
    method ValidateChain(codec: Codec, token: string, root: string, required: Option<Capability>, revoked: seq<string>, now: real)
      returns (v: Verdict)
      ensures var s := Setting(codec, tokens, root, revoked, now);
              v.Accepted? <==> Satisfies(s, token, required) &&
                               forall path :: PathFrom(s, token, path) ==> |path| <= 17 && Sound(s, Last(path))
    {
      var s := Setting(codec, tokens, root, revoked, now);
      v := Validate(s, token, required, 0);
      AcceptedExactly(s, token, required);
    }
  }

  // ---------------------------------------------------------------- the built-in two-token chain

  const HOUSEHOLD_ABILITIES := [
    "aries/household.member", "aries/identity.delegate", "aries/context.read", "aries/context.write",
    "aries/agent.invoke", "aries/handoff.send", "aries/handoff.accept"]

  /** build_household_membership, before signing */
  function Membership(root: string, device: string, now: real): Token {
    Token(root, device, seq(|HOUSEHOLD_ABILITIES|, i requires 0 <= i < |HOUSEHOLD_ABILITIES| => Capability("*", HOUSEHOLD_ABILITIES[i])),
          [], now, 0.0)
  }

  /** build_agent_token, before signing */
  function AgentToken(device: string, agent: string, capabilities: seq<Capability>, ttl: real, proof: string, now: real): Token {
    Token(device, agent, capabilities, if proof == "" then [] else [proof], now, now + ttl)
  }

  /** The agent token of a member device is accepted exactly for what it lists, while both tokens are active and
      none of the three identities is revoked. */
  lemma BuiltChainAccepted(s: Setting, memberText: string, agentText: string, device: string, agent: string,
                           capabilities: seq<Capability>, ttl: real, t0: real, t1: real, required: Capability)
    requires var member := Membership(s.root, device, t0);
             var cid := s.codec.cid(memberText);
             var leaf := AgentToken(device, agent, capabilities, ttl, cid, t1);
             Authentic(s.codec, memberText, member) && Authentic(s.codec, agentText, leaf) &&
             cid != "" && cid in s.tokens && s.tokens[cid] == memberText
    ensures Validate(s, agentText, Some(required), 0).Accepted? <==>
            Grants(capabilities, required) &&
            (forall c :: c in capabilities ==> c.ability in HOUSEHOLD_ABILITIES) &&
            t0 <= s.now && t1 <= s.now && (t1 + ttl > 0.0 ==> s.now <= t1 + ttl) &&
            device !in s.revoked && agent !in s.revoked && s.root !in s.revoked
  {
    var member := Membership(s.root, device, t0);
    var cid := s.codec.cid(memberText);
    var leaf := AgentToken(device, agent, capabilities, ttl, cid, t1);
    forall c: Capability ensures Grants(member.capabilities, c) <==> c.ability in HOUSEHOLD_ABILITIES {
      HouseholdGrants(s.root, device, t0, c);
    }
    hide HOUSEHOLD_ABILITIES, Membership, Grants, Verify;
    MemberAccepted(s, memberText, device, t0);
    VerifyDecodes(s.codec, memberText);
    assert leaf.proofs == [cid] && leaf.proofs[1..] == [];
    assert ValidateProofs(s, leaf, [], 0).Accepted?;
    assert member.audience == device by { MembershipParties(s.root, device, t0); }
  }

  lemma MembershipParties(root: string, device: string, t0: real)
    ensures Membership(root, device, t0).audience == device
  {
  }

  lemma MemberAccepted(s: Setting, memberText: string, device: string, t0: real)
    requires Verify(s.codec, memberText) == Ok(Membership(s.root, device, t0))
    ensures Validate(s, memberText, None, 1).Accepted? <==> t0 <= s.now && s.root !in s.revoked && device !in s.revoked
  {
    hide HOUSEHOLD_ABILITIES, Verify;
  }

  lemma HouseholdGrants(root: string, device: string, t0: real, c: Capability)
    ensures Grants(Membership(root, device, t0).capabilities, c) <==> c.ability in HOUSEHOLD_ABILITIES
  {
    hide HOUSEHOLD_ABILITIES;
    var held := Membership(root, device, t0).capabilities;
    if c.ability in HOUSEHOLD_ABILITIES {
      var i :| 0 <= i < |HOUSEHOLD_ABILITIES| && HOUSEHOLD_ABILITIES[i] == c.ability;
      assert c.IsAttenuatedBy(held[i]);
    }
  }
}
