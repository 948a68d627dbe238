/**
 One proof of control, one credential (src/identity/issuer.ts, issue and rotate, over the control store).
 */
module Issuance {
  import opened Wrappers
  import opened RootLog
  import opened ControlStore

  /** What a credential's issue rested on. */
  datatype Basis = Challenge(challengeId: string) | Attestation(jti: string) | Stub | Principal

  datatype Credential = Credential(credentialId: string, usdot: string, key: Jwk, expiresAt: int, basis: Basis)

  datatype Status = SUPERSEDED | REVOKED

  datatype Venue = Venue(store: Store, issued: map<string, Credential>, order: seq<string>, statuses: map<string, Status>)

  datatype IssueRequest = IssueRequest(credentialId: string, usdot: string, key: Jwk, proof: Option<Proof>)

  /** What other parties say at the time: standing in the registry's record, the stub token it serves, vetting. */
  datatype Facts = Facts(inStanding: bool, stubToken: string, vettingBlocks: bool)

  datatype Terms = Terms(policy: Policy, settings: Settings, validityMs: int)

  datatype Outcome = Minted(credential: Credential) | NotInStanding | NoControl(reason: Refusal) | KeyAlreadyBound | VettingBlocked | NoSuchCredential | AlreadySuperseded | RotationUnauthorized

  function BasisOf(proof: Proof, c: Control): Basis
    requires c.Proven?
  {
    match proof
    case ByChallenge(id) => Challenge(id)
    case ByAttestation(_, _) => Attestation(if c.jti.Some? then c.jti.value else "")
    case ByStub(_) => Stub
  }

  /** A current credential of the entity under another key. */
  predicate BoundElsewhere(v: Venue, usdot: string, x: string, now: int) {
    exists i :: 0 <= i < |v.order| && v.order[i] in v.issued && v.order[i] !in v.statuses
      && v.issued[v.order[i]].usdot == usdot && v.issued[v.order[i]].expiresAt > now && v.issued[v.order[i]].key.x != x
  }

  function Recorded(v: Venue, c: Credential, store: Store): Venue {
    v.(store := store, issued := v.issued[c.credentialId := c], order := v.order + [c.credentialId])
  }

  function Named(k: Jwk): Jwk { Jwk(k.x, Some(KidOf(k))) }

  /** The first half of `issue`, before it waits for vetting. */
  function Decided(v: Venue, t: Terms, req: IssueRequest, f: Facts, now: int): Result<Control, Outcome> {
    if !f.inStanding then Err(NotInStanding)
    else
      var control := EvaluateControl(v.store, t.policy, req.proof, req.usdot, KidOf(req.key), f.stubToken, now);
      if control.Refused? then Err(NoControl(control.reason))
      else if BoundElsewhere(v, req.usdot, req.key.x, now) then Err(KeyAlreadyBound)
      else Ok(control)
  }

  /** The second half: the credential, and the proof spent. */
  function Completed(v: Venue, t: Terms, req: IssueRequest, control: Control, now: int): (Venue, Outcome)
    requires control.Proven? && req.proof.Some?
  {
    var c := Credential(req.credentialId, req.usdot, Named(req.key), now + t.validityMs, BasisOf(req.proof.value, control));
    (Recorded(v, c, Spend(v.store, req.proof, control, now)), Minted(c))
  }

  /** `issue` as one step. */
  function Issued(v: Venue, t: Terms, req: IssueRequest, f: Facts, now: int): (Venue, Outcome) {
    var d := Decided(v, t, req, f, now);
    if d.Err? then (v, d.error)
    else if f.vettingBlocks then (v, VettingBlocked)
    else Completed(v, t, req, d.value, now)
  }

  /** Who authorises a rotation: the current key alone never may. */
  datatype Authority = ByPrincipal(signed: bool) | ByControl(proof: Option<Proof>) | ByCurrentKey

  /** `claimsMatch`: the signed claims name this credential and this key, now, and say renewal if the key is unchanged. */
  datatype RotateRequest = RotateRequest(credentialId: string, newCredentialId: string, newKey: Jwk, claimsMatch: bool, authority: Authority)

  /** The store after the authority is judged, and what the rotation may rest on. */
  function Authorised(v: Venue, t: Terms, usdot: string, req: RotateRequest, f: Facts, now: int): (Store, Result<Basis, Outcome>) {
    match req.authority
    case ByCurrentKey => (v.store, Err(RotationUnauthorized))
    case ByPrincipal(signed) => (v.store, if signed then Ok(Principal) else Err(RotationUnauthorized))
    case ByControl(proof) =>
      var control := EvaluateControl(v.store, t.policy, proof, usdot, Thumbprint(req.newKey), f.stubToken, now);
      if control.Refused? then (v.store, Err(NoControl(control.reason)))
      else (Spend(v.store, proof, control, now), Ok(BasisOf(proof.value, control)))
  }

  /** `rotate`: a proof of control is spent before standing is checked. */
  function Rotated(v: Venue, t: Terms, req: RotateRequest, f: Facts, now: int): (Venue, Outcome) {
    if req.credentialId !in v.issued then (v, NoSuchCredential)
    else if req.credentialId in v.statuses && v.statuses[req.credentialId] == SUPERSEDED then (v, AlreadySuperseded)
    else if !req.claimsMatch then (v, RotationUnauthorized)
    else
      var prior := v.issued[req.credentialId];
      var (store, basis) := Authorised(v, t, prior.usdot, req, f, now);
      var spent := v.(store := store);
      if basis.Err? then (spent, basis.error)
      else if !f.inStanding then (spent, NotInStanding)
      else if f.vettingBlocks then (spent, VettingBlocked)
      else
        var c := Credential(req.newCredentialId, prior.usdot, Named(req.newKey), now + t.validityMs, basis.value);
        (Recorded(spent, c, store).(statuses := v.statuses[req.credentialId := SUPERSEDED]), Minted(c))
  }

  class Issuer {
    const terms: Terms
    const control: ControlStore
    var issued: map<string, Credential>
    var order: seq<string>
    var statuses: map<string, Status>

    /** Opens the credentials and statuses stored before, in the order they were minted. */
    constructor (terms: Terms, control: ControlStore, issued: map<string, Credential>, order: seq<string>, statuses: map<string, Status>)
      ensures this.terms == terms && this.control == control
      ensures this.issued == issued && this.order == order && this.statuses == statuses
    {
      this.terms, this.control := terms, control;
      this.issued, this.order, this.statuses := issued, order, statuses;
    }

    function View(): Venue
      reads this, control
    {
      Venue(control.View(), issued, order, statuses)
    }

    method Issue(req: IssueRequest, f: Facts, now: int) returns (o: Outcome)
      modifies this, control
      ensures (View(), o) == Issued(old(View()), terms, req, f, now)
    {
      if !f.inStanding { return NotInStanding; }
      var c := EvaluateControl(control.View(), terms.policy, req.proof, req.usdot, KidOf(req.key), f.stubToken, now);
      if c.Refused? { return NoControl(c.reason); }
      if BoundElsewhere(View(), req.usdot, req.key.x, now) { return KeyAlreadyBound; }
      if f.vettingBlocks { return VettingBlocked; }
      var credential := Credential(req.credentialId, req.usdot, Named(req.key), now + terms.validityMs, BasisOf(req.proof.value, c));
      issued := issued[credential.credentialId := credential];
      order := order + [credential.credentialId];
      control.Consume(if req.proof.value.ByChallenge? then Some(req.proof.value.challengeId) else None, c.jti, now);
      return Minted(credential);
    }

    method Rotate(req: RotateRequest, f: Facts, now: int) returns (o: Outcome)
      modifies this, control
      ensures (View(), o) == Rotated(old(View()), terms, req, f, now)
    {
      if req.credentialId !in issued { return NoSuchCredential; }
      if req.credentialId in statuses && statuses[req.credentialId] == SUPERSEDED { return AlreadySuperseded; }
      if !req.claimsMatch { return RotationUnauthorized; }
      var prior := issued[req.credentialId];
      var basis := Principal;
      match req.authority {
        case ByCurrentKey => return RotationUnauthorized;
        case ByPrincipal(signed) => if !signed { return RotationUnauthorized; }
        case ByControl(proof) =>
          var c := EvaluateControl(control.View(), terms.policy, proof, prior.usdot, Thumbprint(req.newKey), f.stubToken, now);
          if c.Refused? { return NoControl(c.reason); }
          control.Consume(if proof.value.ByChallenge? then Some(proof.value.challengeId) else None, c.jti, now);
          basis := BasisOf(proof.value, c);
      }
      if !f.inStanding { return NotInStanding; }
      if f.vettingBlocks { return VettingBlocked; }
      var credential := Credential(req.newCredentialId, prior.usdot, Named(req.newKey), now + terms.validityMs, basis);
      issued := issued[credential.credentialId := credential];
      order := order + [credential.credentialId];
      statuses := statuses[req.credentialId := SUPERSEDED];
      return Minted(credential);
    }

    method Revoke(credentialId: string) returns (known: bool)
      modifies this`statuses
      ensures known <==> credentialId in issued
      ensures View() == RevokedIn(old(View()), credentialId)
    {
      if credentialId !in issued { return false; }
      statuses := statuses[credentialId := REVOKED];
      return true;
    }
  }

  function RevokedIn(v: Venue, credentialId: string): Venue {
    if credentialId in v.issued then v.(statuses := v.statuses[credentialId := REVOKED]) else v
  }

  // ---------------------------------------------------------------- every run

  datatype Step =
    | SendCode(id: string, usdot: string, kid: Digest, code: string, sentTo: string, at: int)
    | AnswerCode(id: string, answer: string, at: int)
    | SweepOld(at: int, keepMs: int)
    | IssueCredential(issueRequest: IssueRequest, facts: Facts, at: int)
    | RotateCredential(rotateRequest: RotateRequest, facts: Facts, at: int)
    | RevokeCredential(credentialId: string)

  function Next(v: Venue, t: Terms, s: Step): Venue {
    match s
    case SendCode(id, usdot, kid, code, sentTo, at) => v.(store := Sent(v.store, t.settings, id, usdot, kid, code, sentTo, at))
    case AnswerCode(id, answer, at) => v.(store := Verified(v.store, t.settings, id, answer, at).0)
    case SweepOld(at, keepMs) => v.(store := Swept(v.store, at, keepMs))
    case IssueCredential(req, f, at) => Issued(v, t, req, f, at).0
    case RotateCredential(req, f, at) => Rotated(v, t, req, f, at).0
    case RevokeCredential(id) => RevokedIn(v, id)
  }

  const Founded := Venue(Store(map[], map[]), map[], [], map[])

  function RunSteps(t: Terms, steps: seq<Step>): Venue {
    if steps == [] then Founded else Next(RunSteps(t, steps[..|steps| - 1]), t, steps[|steps| - 1])
  }

  predicate SendsId(s: Step, id: string) { s.SendCode? && s.id == id }

  function NewCredential(s: Step): Option<string> {
    if s.IssueCredential? then Some(s.issueRequest.credentialId) else if s.RotateCredential? then Some(s.rotateRequest.newCredentialId) else None
  }

  /** Challenge ids and credential ids are fresh each time. */
  ghost predicate FreshIds(steps: seq<Step>) {
    && (forall i :: 0 <= i < |steps| && steps[i].SendCode? ==> steps[i].id != "")
    && (forall i, j :: 0 <= i < j < |steps| && steps[i].SendCode? ==> !SendsId(steps[j], steps[i].id))
    && (forall i, j :: 0 <= i < j < |steps| && NewCredential(steps[i]).Some? ==> NewCredential(steps[j]) != NewCredential(steps[i]))
  }

  /** Wrong answers given to a challenge. */
  function WrongTries(steps: seq<Step>, id: string, code: string): nat {
    if steps == [] then 0
    else
      var s := steps[|steps| - 1];
      WrongTries(steps[..|steps| - 1], id, code) + if s.AnswerCode? && s.id == id && Trim(s.answer) != code then 1 else 0
  }

  predicate Opens(s: Step, t: Terms, id: string, c: Row) {
    s.SendCode? && s.id == id && s.usdot == c.usdot && s.kid == c.subjectKid && s.code == c.code && s.at + t.settings.ttlMs == c.expiresAt
  }

  /** At step `i` the challenge was sent for this entity and key; at `j` its code came back in time after fewer wrong tries than are allowed. */
  ghost predicate Earned(steps: seq<Step>, t: Terms, id: string, usdot: string, kid: Digest, i: nat, j: nat) {
    && i < j < |steps|
    && steps[i].SendCode? && steps[i].id == id && steps[i].usdot == usdot && steps[i].kid == kid
    && steps[j].AnswerCode? && steps[j].id == id && Trim(steps[j].answer) == steps[i].code
    && steps[j].at < steps[i].at + t.settings.ttlMs
    && WrongTries(steps[i..j], id, steps[i].code) < t.settings.maxAttempts
  }

  /** A challenge in the store, traced to the steps that made it so. */
  ghost predicate RowTraced(steps: seq<Step>, t: Terms, id: string, c: Row) {
    exists i :: 0 <= i < |steps| && Opens(steps[i], t, id, c) && OpenSince(steps, t, id, c, i)
  }

  ghost predicate OpenSince(steps: seq<Step>, t: Terms, id: string, c: Row, i: nat)
    requires i < |steps|
  {
    && (c.satisfiedAt.None? && c.deadAt.None? ==> c.attempts == WrongTries(steps[i..], id, c.code) < t.settings.maxAttempts)
    && (c.satisfiedAt.Some? ==> EverEarned(steps, t, id, c.usdot, c.subjectKid))
    && (c.consumedAt.Some? ==> c.satisfiedAt.Some?)
  }

  ghost predicate EverEarned(steps: seq<Step>, t: Terms, id: string, usdot: string, kid: Digest) {
    exists i: nat, j: nat :: Earned(steps, t, id, usdot, kid, i, j)
  }

  ghost predicate WasSent(steps: seq<Step>, id: string) { exists i :: 0 <= i < |steps| && SendsId(steps[i], id) }

  /** The proof of control a step presents. */
  function Presented(s: Step): Option<Proof> {
    match s
    case IssueCredential(req, _, _) => req.proof
    case RotateCredential(req, _, _) => if req.authority.ByControl? then req.authority.proof else None
    case _ => None
  }

  /** The attestation presented is the one the credential rests on, about its entity and the key of this name. */
  predicate Vouched(s: Step, c: Credential, kid: Digest) {
    c.basis.Attestation? ==>
      && Presented(s).Some? && Presented(s).value.ByAttestation? && Presented(s).value.attestation.Some?
      && var a := Presented(s).value.attestation.value;
         a.jti == c.basis.jti && a.usdot == c.usdot && a.subjectKid == kid
  }

  /** This step minted the credential, judging the proof for the key of this name: what the key calls itself in an issue, its thumbprint in a rotation. */
  predicate MintedAt(s: Step, c: Credential, kid: Digest) {
    && NewCredential(s) == Some(c.credentialId) && Vouched(s, c, kid)
    && match s
       case IssueCredential(req, _, _) => c.key == Named(req.key) && c.usdot == req.usdot && kid == KidOf(req.key)
       case RotateCredential(req, _, _) => c.key == Named(req.newKey) && kid == Thumbprint(req.newKey)
       case _ => false
  }

  ghost predicate TracedAt(steps: seq<Step>, t: Terms, c: Credential, i: nat, kid: Digest) {
    && i < |steps| && MintedAt(steps[i], c, kid)
    && (c.basis.Challenge? ==> EverEarned(steps, t, c.basis.challengeId, c.usdot, kid) && WasSent(steps, c.basis.challengeId))
  }

  ghost predicate CredentialTraced(steps: seq<Step>, t: Terms, c: Credential) { exists i: nat, kid: Digest :: TracedAt(steps, t, c, i, kid) }

  /** The proof a credential rests on can no longer be used. */
  predicate BasisSpent(s: Store, b: Basis) {
    && (b.Challenge? && b.challengeId in s.challenges ==> s.challenges[b.challengeId].consumedAt.Some?)
    && (b.Attestation? && b.jti != "" ==> b.jti in s.spent)
  }

  /** A challenge, or an attestation with an id: an empty id is never recorded as spent. */
  predicate OneTime(b: Basis) { b.Challenge? || (b.Attestation? && b.jti != "") }

  ghost predicate RowsTraced(s: Store, steps: seq<Step>, t: Terms) {
    forall id :: id in s.challenges ==> RowTraced(steps, t, id, s.challenges[id])
  }

  ghost predicate CredentialsTraced(v: Venue, steps: seq<Step>, t: Terms) {
    forall k :: k in v.issued ==> v.issued[k].credentialId == k && CredentialTraced(steps, t, v.issued[k]) && BasisSpent(v.store, v.issued[k].basis)
  }

  predicate OneEach(v: Venue) {
    forall j, k :: j in v.issued && k in v.issued && v.issued[j].basis == v.issued[k].basis && OneTime(v.issued[j].basis) ==> j == k
  }

  ghost predicate Kept(v: Venue, steps: seq<Step>, t: Terms) {
    RowsTraced(v.store, steps, t) && CredentialsTraced(v, steps, t) && OneEach(v)
  }

  // ---------------------------------------------------------------- one step more

  lemma EarnedStays(steps: seq<Step>, s: Step, t: Terms, id: string, usdot: string, kid: Digest)
    requires EverEarned(steps, t, id, usdot, kid)
    ensures EverEarned(steps + [s], t, id, usdot, kid)
  {
    var i: nat, j: nat :| Earned(steps, t, id, usdot, kid, i, j);
    assert (steps + [s])[i..j] == steps[i..j];
    assert Earned(steps + [s], t, id, usdot, kid, i, j);
  }

  lemma WasSentStays(steps: seq<Step>, s: Step, id: string)
    requires WasSent(steps, id)
    ensures WasSent(steps + [s], id)
  {
    var i :| 0 <= i < |steps| && SendsId(steps[i], id);
    assert SendsId((steps + [s])[i], id);
  }

  lemma WrongSnoc(steps: seq<Step>, s: Step, id: string, code: string)
    ensures WrongTries(steps + [s], id, code) == WrongTries(steps, id, code) + if s.AnswerCode? && s.id == id && Trim(s.answer) != code then 1 else 0
  {
    assert (steps + [s])[..|steps|] == steps;
  }

  lemma TailSnoc(steps: seq<Step>, s: Step, i: nat)
    requires i <= |steps|
    ensures (steps + [s])[i..] == steps[i..] + [s]
  {
  }

  /** A row is still traced after a step that leaves it alone, or only closes or consumes it once answered. */
  lemma RowStays(steps: seq<Step>, s: Step, t: Terms, id: string, c: Row, d: Row)
    requires RowTraced(steps, t, id, c) && !(s.AnswerCode? && s.id == id && c.satisfiedAt.None? && d.deadAt.None?)
    requires d == c.(deadAt := d.deadAt, consumedAt := d.consumedAt)
    requires c.deadAt.Some? ==> d.deadAt.Some?
    requires d.consumedAt.Some? ==> c.satisfiedAt.Some?
    ensures RowTraced(steps + [s], t, id, d)
  {
    var i :| 0 <= i < |steps| && Opens(steps[i], t, id, c) && OpenSince(steps, t, id, c, i);
    WrongSnoc(steps[i..], s, id, c.code);
    TailSnoc(steps, s, i);
    if c.satisfiedAt.Some? { EarnedStays(steps, s, t, id, c.usdot, c.subjectKid); }
    assert (steps + [s])[i] == steps[i];
    assert Opens((steps + [s])[i], t, id, d) && OpenSince(steps + [s], t, id, d, i);
  }

  lemma SentRowTraced(steps: seq<Step>, s: Step, t: Terms, c: Row)
    requires s.SendCode? && t.settings.maxAttempts >= 1
    requires c == Row(s.usdot, s.kid, s.code, s.sentTo, s.at, s.at + t.settings.ttlMs, 0, None, None, None)
    ensures RowTraced(steps + [s], t, s.id, c)
  {
    var i := |steps|;
    TailSnoc(steps, s, i);
    WrongSnoc([], s, s.id, c.code);
    assert steps[i..] == [] && [] + [s] == [s];
    assert Opens((steps + [s])[i], t, s.id, c) && OpenSince(steps + [s], t, s.id, c, i);
  }

  lemma WrongAnswerTraced(steps: seq<Step>, s: Step, t: Terms, c: Row, d: Row)
    requires s.AnswerCode? && RowTraced(steps, t, s.id, c) && c.deadAt.None? && c.satisfiedAt.None? && c.consumedAt.None?
    requires Trim(s.answer) != c.code && d == c.(attempts := c.attempts + 1, deadAt := d.deadAt)
    requires d.deadAt.None? ==> d.attempts < t.settings.maxAttempts
    ensures RowTraced(steps + [s], t, s.id, d)
  {
    var i :| 0 <= i < |steps| && Opens(steps[i], t, s.id, c) && OpenSince(steps, t, s.id, c, i);
    WrongSnoc(steps[i..], s, s.id, c.code);
    TailSnoc(steps, s, i);
    assert (steps + [s])[i] == steps[i];
    assert Opens((steps + [s])[i], t, s.id, d) && OpenSince(steps + [s], t, s.id, d, i);
  }

  lemma RightAnswerTraced(steps: seq<Step>, s: Step, t: Terms, c: Row, d: Row)
    requires s.AnswerCode? && RowTraced(steps, t, s.id, c) && c.deadAt.None? && c.satisfiedAt.None? && c.consumedAt.None?
    requires Trim(s.answer) == c.code && s.at < c.expiresAt
    requires d == c.(attempts := c.attempts + 1, satisfiedAt := Some(s.at))
    ensures RowTraced(steps + [s], t, s.id, d)
  {
    var i :| 0 <= i < |steps| && Opens(steps[i], t, s.id, c) && OpenSince(steps, t, s.id, c, i);
    var all, j := steps + [s], |steps|;
    assert all[i] == steps[i] && all[j] == s && all[i..j] == steps[i..];
    assert Earned(all, t, s.id, c.usdot, c.subjectKid, i, j);
    assert Opens(all[i], t, s.id, d) && OpenSince(all, t, s.id, d, i);
  }

  lemma AnswerKeepsRows(v: Store, steps: seq<Step>, s: Step, t: Terms)
    requires RowsTraced(v, steps, t) && s.AnswerCode?
    ensures RowsTraced(Verified(v, t.settings, s.id, s.answer, s.at).0, steps + [s], t)
  {
    var after := Verified(v, t.settings, s.id, s.answer, s.at).0;
    forall id | id in after.challenges ensures RowTraced(steps + [s], t, id, after.challenges[id]) {
      var c, d := v.challenges[id], after.challenges[id];
      assert RowTraced(steps, t, id, c);
      if id != s.id || c.deadAt.Some? || c.consumedAt.Some? || c.expiresAt <= s.at || c.satisfiedAt.Some? {
        ConsumedIsSatisfied(steps, t, id, c);
        RowStays(steps, s, t, id, c, d);
      } else if Trim(s.answer) != c.code {
        WrongAnswerTraced(steps, s, t, c, d);
      } else {
        RightAnswerTraced(steps, s, t, c, d);
      }
    }
  }

  lemma ConsumedIsSatisfied(steps: seq<Step>, t: Terms, id: string, c: Row)
    requires RowTraced(steps, t, id, c)
    ensures c.consumedAt.Some? ==> c.satisfiedAt.Some?
    ensures c.satisfiedAt.Some? ==> EverEarned(steps, t, id, c.usdot, c.subjectKid)
    ensures WasSent(steps, id)
  {
    var i :| 0 <= i < |steps| && Opens(steps[i], t, id, c) && OpenSince(steps, t, id, c, i);
    assert SendsId(steps[i], id);
  }

  /** Nothing but answered challenges becoming consumed, or challenges gone; nothing spent becoming unspent. */
  predicate OnlySpends(a: Store, b: Store) {
    && (forall id :: id in b.challenges ==> id in a.challenges && OnlyConsumes(a.challenges[id], b.challenges[id]))
    && a.spent.Keys <= b.spent.Keys
  }

  predicate OnlyConsumes(c: Row, d: Row) {
    d == c.(consumedAt := d.consumedAt) && (d != c ==> c.satisfiedAt.Some? && d.consumedAt.Some?)
  }

  lemma SpendingKeepsRows(a: Store, b: Store, steps: seq<Step>, s: Step, t: Terms)
    requires RowsTraced(a, steps, t) && OnlySpends(a, b) && !s.AnswerCode?
    ensures RowsTraced(b, steps + [s], t)
  {
    forall id | id in b.challenges ensures RowTraced(steps + [s], t, id, b.challenges[id]) {
      var c := a.challenges[id];
      ConsumedIsSatisfied(steps, t, id, c);
      RowStays(steps, s, t, id, c, b.challenges[id]);
    }
  }

  lemma SendKeepsRows(v: Store, steps: seq<Step>, s: Step, t: Terms)
    requires RowsTraced(v, steps, t) && s.SendCode? && t.settings.maxAttempts >= 1
    ensures RowsTraced(Sent(v, t.settings, s.id, s.usdot, s.kid, s.code, s.sentTo, s.at), steps + [s], t)
  {
    var after := Sent(v, t.settings, s.id, s.usdot, s.kid, s.code, s.sentTo, s.at);
    SentRowTraced(steps, s, t, after.challenges[s.id]);
    forall id | id in after.challenges ensures RowTraced(steps + [s], t, id, after.challenges[id]) {
      if id != s.id {
        ConsumedIsSatisfied(steps, t, id, v.challenges[id]);
        RowStays(steps, s, t, id, v.challenges[id], after.challenges[id]);
      }
    }
  }

  // ---------------------------------------------------------------- what issuing does

  /** The proof was good, unused, and about this entity and key. */
  predicate RestsOn(s: Store, c: Credential, kid: Digest) {
    && (c.basis.Challenge? ==>
          c.basis.challengeId in s.challenges
          && var row := s.challenges[c.basis.challengeId];
             row.satisfiedAt.Some? && row.consumedAt.None? && row.usdot == c.usdot && row.subjectKid == kid)
    && (c.basis.Attestation? ==> c.basis.jti !in s.spent)
  }

  predicate NoEmptyIds(s: Store) { "" !in s.challenges }

  /** The attestation presented is about this entity and the key of this name, and its id is the basis. */
  predicate AttestedFor(proof: Proof, c: Credential, kid: Digest) {
    c.basis.Attestation? ==>
      && proof.ByAttestation? && proof.attestation.Some?
      && proof.attestation.value.jti == c.basis.jti && proof.attestation.value.usdot == c.usdot && proof.attestation.value.subjectKid == kid
  }

  lemma ControlGivesBasis(s: Store, p: Policy, proof: Option<Proof>, usdot: string, kid: Digest, stubToken: string, now: int, c: Credential)
    requires NoEmptyIds(s) && EvaluateControl(s, p, proof, usdot, kid, stubToken, now).Proven? && c.usdot == usdot
    requires c.basis == BasisOf(proof.value, EvaluateControl(s, p, proof, usdot, kid, stubToken, now))
    ensures var after := Spend(s, proof, EvaluateControl(s, p, proof, usdot, kid, stubToken, now), now);
      RestsOn(s, c, kid) && AttestedFor(proof.value, c, kid) && OnlySpends(s, after) && BasisSpent(after, c.basis)
  {
  }

  /** What a step of issuing or rotating can do: spend at most, or spend and mint. */
  ghost predicate Minting(a: Venue, b: Venue, s: Step) {
    && OnlySpends(a.store, b.store)
    && (b.issued == a.issued || exists c, kid :: MintsOne(a, b, s, c, kid))
  }

  ghost predicate MintsOne(a: Venue, b: Venue, s: Step, c: Credential, kid: Digest) {
    MintedAt(s, c, kid) && b.issued == a.issued[c.credentialId := c] && RestsOn(a.store, c, kid) && BasisSpent(b.store, c.basis)
  }

  lemma NothingSpent(s: Store)
    ensures OnlySpends(s, s)
  {
  }

  lemma IssueMints(v: Venue, t: Terms, s: Step)
    requires NoEmptyIds(v.store) && s.IssueCredential?
    ensures Minting(v, Next(v, t, s), s)
  {
    var (req, f) := (s.issueRequest, s.facts);
    NothingSpent(v.store);
    var (after, o) := Issued(v, t, req, f, s.at);
    if o.Minted? {
      ControlGivesBasis(v.store, t.policy, req.proof, req.usdot, KidOf(req.key), f.stubToken, s.at, o.credential);
      assert MintsOne(v, after, s, o.credential, KidOf(req.key));
    }
  }

  lemma RotateMints(v: Venue, t: Terms, s: Step)
    requires NoEmptyIds(v.store) && s.RotateCredential?
    ensures Minting(v, Next(v, t, s), s)
  {
    var (req, f) := (s.rotateRequest, s.facts);
    NothingSpent(v.store);
    var (after, o) := Rotated(v, t, req, f, s.at);
    if req.credentialId in v.issued && req.authority.ByControl? {
      var usdot, kid := v.issued[req.credentialId].usdot, Thumbprint(req.newKey);
      var control := EvaluateControl(v.store, t.policy, req.authority.proof, usdot, kid, f.stubToken, s.at);
      if control.Proven? {
        var c := Credential(req.newCredentialId, usdot, Named(req.newKey), s.at + t.validityMs, BasisOf(req.authority.proof.value, control));
        ControlGivesBasis(v.store, t.policy, req.authority.proof, usdot, kid, f.stubToken, s.at, c);
        if o.Minted? { assert MintsOne(v, after, s, c, kid); }
      }
    } else if o.Minted? {
      assert MintsOne(v, after, s, o.credential, Thumbprint(req.newKey));
    }
  }

  lemma OldCredentialsStay(a: Venue, b: Venue, steps: seq<Step>, s: Step, t: Terms, k: string)
    requires Kept(a, steps, t) && OnlySpends(a.store, b.store) && k in a.issued
    ensures a.issued[k].credentialId == k && CredentialTraced(steps + [s], t, a.issued[k]) && BasisSpent(b.store, a.issued[k].basis)
  {
    assert CredentialTraced(steps, t, a.issued[k]) && BasisSpent(a.store, a.issued[k].basis);
    CredentialStays(steps, s, t, a.issued[k]);
  }

  lemma NewCredentialTraced(a: Venue, b: Venue, steps: seq<Step>, s: Step, t: Terms, c: Credential, kid: Digest)
    requires Kept(a, steps, t) && MintsOne(a, b, s, c, kid)
    ensures CredentialTraced(steps + [s], t, c)
    ensures forall k :: k in a.issued && OneTime(c.basis) ==> a.issued[k].basis != c.basis
  {
    if c.basis.Challenge? {
      ConsumedIsSatisfied(steps, t, c.basis.challengeId, a.store.challenges[c.basis.challengeId]);
      EarnedStays(steps, s, t, c.basis.challengeId, c.usdot, kid);
      WasSentStays(steps, s, c.basis.challengeId);
    }
    assert (steps + [s])[|steps|] == s;
    assert TracedAt(steps + [s], t, c, |steps|, kid);
    forall k | k in a.issued && OneTime(c.basis) ensures a.issued[k].basis != c.basis {
      assert BasisSpent(a.store, a.issued[k].basis);
    }
  }

  lemma MintKeepsTraces(a: Venue, b: Venue, steps: seq<Step>, s: Step, t: Terms, c: Credential, kid: Digest)
    requires Kept(a, steps, t) && OnlySpends(a.store, b.store) && MintsOne(a, b, s, c, kid)
    ensures CredentialsTraced(b, steps + [s], t)
  {
    NewCredentialTraced(a, b, steps, s, t, c, kid);
    forall k | k in b.issued ensures b.issued[k].credentialId == k && CredentialTraced(steps + [s], t, b.issued[k]) && BasisSpent(b.store, b.issued[k].basis) {
      if k != c.credentialId { OldCredentialsStay(a, b, steps, s, t, k); }
    }
  }

  lemma MintKeepsOneEach(a: Venue, b: Venue, c: Credential)
    requires OneEach(a) && b.issued == a.issued[c.credentialId := c]
    requires forall k :: k in a.issued && OneTime(c.basis) ==> a.issued[k].basis != c.basis
    ensures OneEach(b)
  {
  }

  lemma MintKeepsCredentials(a: Venue, b: Venue, steps: seq<Step>, s: Step, t: Terms)
    requires Kept(a, steps, t) && Minting(a, b, s)
    ensures CredentialsTraced(b, steps + [s], t) && OneEach(b)
  {
    if b.issued == a.issued {
      forall k | k in a.issued ensures a.issued[k].credentialId == k && CredentialTraced(steps + [s], t, a.issued[k]) && BasisSpent(b.store, a.issued[k].basis) {
        OldCredentialsStay(a, b, steps, s, t, k);
      }
    } else {
      var c, kid :| MintsOne(a, b, s, c, kid);
      MintKeepsTraces(a, b, steps, s, t, c, kid);
      NewCredentialTraced(a, b, steps, s, t, c, kid);
      MintKeepsOneEach(a, b, c);
    }
  }

  lemma CredentialStays(steps: seq<Step>, s: Step, t: Terms, c: Credential)
    requires CredentialTraced(steps, t, c)
    ensures CredentialTraced(steps + [s], t, c)
  {
    var i: nat, kid :| TracedAt(steps, t, c, i, kid);
    if c.basis.Challenge? {
      EarnedStays(steps, s, t, c.basis.challengeId, c.usdot, kid);
      WasSentStays(steps, s, c.basis.challengeId);
    }
    assert (steps + [s])[i] == steps[i];
    assert TracedAt(steps + [s], t, c, i, kid);
  }

  /** A step that mints nothing keeps every basis spent. */
  lemma OtherKeepsCredentials(a: Venue, b: Venue, steps: seq<Step>, s: Step, t: Terms)
    requires Kept(a, steps, t) && b.issued == a.issued && a.store.spent.Keys <= b.store.spent.Keys
    requires forall id :: id in b.store.challenges && WasSent(steps, id) ==>
      id in a.store.challenges && (a.store.challenges[id].consumedAt.Some? ==> b.store.challenges[id].consumedAt.Some?)
    ensures CredentialsTraced(b, steps + [s], t) && OneEach(b)
  {
    forall k | k in b.issued ensures CredentialTraced(steps + [s], t, b.issued[k]) && BasisSpent(b.store, b.issued[k].basis) {
      assert CredentialTraced(steps, t, a.issued[k]) && BasisSpent(a.store, a.issued[k].basis);
      CredentialStays(steps, s, t, b.issued[k]);
    }
  }

  lemma IdsAreNotEmpty(v: Venue, steps: seq<Step>, t: Terms)
    requires RowsTraced(v.store, steps, t) && FreshIds(steps)
    ensures NoEmptyIds(v.store)
  {
    forall id | id in v.store.challenges ensures id != "" {
      ConsumedIsSatisfied(steps, t, id, v.store.challenges[id]);
    }
  }

  lemma SentIdIsNew(steps: seq<Step>, s: Step)
    requires FreshIds(steps + [s]) && s.SendCode?
    ensures !WasSent(steps, s.id)
  {
    forall i | 0 <= i < |steps| ensures !SendsId(steps[i], s.id) {
      assert (steps + [s])[i] == steps[i] && (steps + [s])[|steps|] == s;
    }
  }

  lemma SendKeeps(v: Venue, steps: seq<Step>, s: Step, t: Terms)
    requires Kept(v, steps, t) && FreshIds(steps + [s]) && t.settings.maxAttempts >= 1 && s.SendCode?
    ensures Kept(Next(v, t, s), steps + [s], t)
  {
    SendKeepsRows(v.store, steps, s, t);
    SentIdIsNew(steps, s);
    OtherKeepsCredentials(v, Next(v, t, s), steps, s, t);
  }

  lemma AnswerKeeps(v: Venue, steps: seq<Step>, s: Step, t: Terms)
    requires Kept(v, steps, t) && s.AnswerCode?
    ensures Kept(Next(v, t, s), steps + [s], t)
  {
    AnswerKeepsRows(v.store, steps, s, t);
    OtherKeepsCredentials(v, Next(v, t, s), steps, s, t);
  }

  lemma HousekeepingKeeps(v: Venue, steps: seq<Step>, s: Step, t: Terms)
    requires Kept(v, steps, t) && (s.SweepOld? || s.RevokeCredential?)
    ensures Kept(Next(v, t, s), steps + [s], t)
  {
    var after := Next(v, t, s);
    NothingSpent(v.store);
    SpendingKeepsRows(v.store, after.store, steps, s, t);
    OtherKeepsCredentials(v, after, steps, s, t);
  }

  lemma MintingKeeps(v: Venue, after: Venue, steps: seq<Step>, s: Step, t: Terms)
    requires Kept(v, steps, t) && Minting(v, after, s) && !s.AnswerCode?
    ensures Kept(after, steps + [s], t)
  {
    SpendingKeepsRows(v.store, after.store, steps, s, t);
    MintKeepsCredentials(v, after, steps, s, t);
  }

  lemma StepKeeps(v: Venue, steps: seq<Step>, s: Step, t: Terms)
    requires Kept(v, steps, t) && FreshIds(steps + [s]) && FreshIds(steps) && t.settings.maxAttempts >= 1
    ensures Kept(Next(v, t, s), steps + [s], t)
  {
    IdsAreNotEmpty(v, steps, t);
    if s.SendCode? {
      SendKeeps(v, steps, s, t);
    } else if s.AnswerCode? {
      AnswerKeeps(v, steps, s, t);
    } else if s.IssueCredential? {
      IssueMints(v, t, s);
      MintingKeeps(v, Next(v, t, s), steps, s, t);
    } else if s.RotateCredential? {
      RotateMints(v, t, s);
      MintingKeeps(v, Next(v, t, s), steps, s, t);
    } else {
      HousekeepingKeeps(v, steps, s, t);
    }
  }

  lemma FreshPrefix(steps: seq<Step>)
    requires steps != [] && FreshIds(steps)
    ensures FreshIds(steps[..|steps| - 1])
  {
  }

  lemma {:induction false} EveryRunKeeps(t: Terms, steps: seq<Step>)
    requires FreshIds(steps) && t.settings.maxAttempts >= 1
    ensures Kept(RunSteps(t, steps), steps, t)
  {
    if steps != [] {
      var n := |steps| - 1;
      FreshPrefix(steps);
      EveryRunKeeps(t, steps[..n]);
      assert steps == steps[..n] + [steps[n]];
      StepKeeps(RunSteps(t, steps[..n]), steps[..n], steps[n], t);
    }
  }

  /**
   One proof, one credential. In every run, sweeps, rotations and revocations included, every credential was minted by
   one step that judged its proof for the key by some name. If it rests on a contact challenge, that was sent earlier
   for the same entity and name and answered correctly in time, after fewer wrong tries than allowed. No other
   credential rests on that challenge, or on an attestation's id.
   */
  lemma OneProofOneCredential(t: Terms, steps: seq<Step>)
    requires FreshIds(steps) && t.settings.maxAttempts >= 1
    ensures var v := RunSteps(t, steps);
      && (forall k :: k in v.issued ==> CredentialTraced(steps, t, v.issued[k]))
      && (forall j, k :: j in v.issued && k in v.issued && v.issued[j].basis == v.issued[k].basis && OneTime(v.issued[j].basis) ==> j == k)
  {
    EveryRunKeeps(t, steps);
  }

  // ---------------------------------------------------------------- bound to the key, or to what it calls itself

  /** An issue presents its key under no other name than its thumbprint; a rotation goes by the thumbprint anyway. */
  predicate NamesItself(s: Step) { s.IssueCredential? ==> KidOf(s.issueRequest.key) == Thumbprint(s.issueRequest.key) }

  /** What the proof is about, by name. */
  predicate AboutKey(s: Store, proof: Option<Proof>, kid: Digest) {
    proof.Some? && match proof.value
      case ByChallenge(id) => id in s.challenges && s.challenges[id].subjectKid == kid
      case ByAttestation(_, a) => a.Some? && a.value.subjectKid == kid
      case ByStub(_) => false
  }

  /** A proof about one key, accepted for a key presented: the two are one key exactly when the one presented calls itself by its thumbprint. */
  lemma IssueBindsExactlyWhenNamed(v: Venue, t: Terms, req: IssueRequest, f: Facts, now: int, own: string)
    requires Issued(v, t, req, f, now).1.Minted? && AboutKey(v.store, req.proof, Sha(own))
    ensures Issued(v, t, req, f, now).1.credential.key.x == own <==> KidOf(req.key) == Thumbprint(req.key)
  {
  }

  /** In a rotation they always are. */
  lemma RotationBinds(v: Venue, t: Terms, req: RotateRequest, f: Facts, now: int, own: string)
    requires Rotated(v, t, req, f, now).1.Minted? && req.authority.ByControl? && AboutKey(v.store, req.authority.proof, Sha(own))
    ensures Rotated(v, t, req, f, now).1.credential.key.x == own
  {
  }

  /**
   Whoever holds somebody's accepted proof mints on it for a key of its own by calling that key by the other's name:
   whatever mints for the one mints for the other, unless the entity has another current key.
   */
  lemma AnothersNameMintsOnAnothersProof(v: Venue, t: Terms, own: IssueRequest, x: string, f: Facts, now: int)
    requires Issued(v, t, own, f, now).1.Minted?
    ensures var other := own.(key := Jwk(x, Some(KidOf(own.key))));
      var o := Issued(v, t, other, f, now).1;
      && (o.Minted? <==> !BoundElsewhere(v, own.usdot, x, now))
      && (o.Minted? ==> o.credential.key.x == x && o.credential.basis == Issued(v, t, own, f, now).1.credential.basis)
  {
  }

  lemma SentOnce(steps: seq<Step>, i: nat, j: nat)
    requires FreshIds(steps) && i < |steps| && j < |steps| && steps[i].SendCode? && steps[j].SendCode? && steps[i].id == steps[j].id
    ensures i == j
  {
    if i < j { assert SendsId(steps[j], steps[i].id); }
    if j < i { assert SendsId(steps[i], steps[j].id); }
  }

  lemma MintedOnce(steps: seq<Step>, i: nat, j: nat)
    requires FreshIds(steps) && i < |steps| && j < |steps| && NewCredential(steps[i]).Some? && NewCredential(steps[i]) == NewCredential(steps[j])
    ensures i == j
  {
  }

  /** Over any run: a credential minted at step `i` on a challenge sent for the key `own` is for that very key exactly when step `i` was a rotation or presented a key that names itself. */
  lemma BoundExactlyWhenNamed(t: Terms, steps: seq<Step>, k: string, i: nat, j: nat, own: string)
    requires FreshIds(steps) && t.settings.maxAttempts >= 1 && k in RunSteps(t, steps).issued
    requires var c := RunSteps(t, steps).issued[k];
      && i < |steps| && NewCredential(steps[i]) == Some(k) && c.basis.Challenge?
      && j < |steps| && steps[j].SendCode? && steps[j].id == c.basis.challengeId && steps[j].kid == Sha(own)
    ensures RunSteps(t, steps).issued[k].key.x == own <==> NamesItself(steps[i])
  {
    EveryRunKeeps(t, steps);
    var c := RunSteps(t, steps).issued[k];
    var m: nat, kid :| TracedAt(steps, t, c, m, kid);
    MintedOnce(steps, i, m);
    var sent: nat, answered: nat :| Earned(steps, t, c.basis.challengeId, c.usdot, kid, sent, answered);
    SentOnce(steps, sent, j);
  }

  /** The same for an attestation about the key `own`. */
  lemma AttestedExactlyWhenNamed(t: Terms, steps: seq<Step>, k: string, i: nat, own: string)
    requires FreshIds(steps) && t.settings.maxAttempts >= 1 && k in RunSteps(t, steps).issued
    requires i < |steps| && NewCredential(steps[i]) == Some(k) && RunSteps(t, steps).issued[k].basis.Attestation?
    ensures Presented(steps[i]).Some? && Presented(steps[i]).value.ByAttestation? && Presented(steps[i]).value.attestation.Some?
    ensures Presented(steps[i]).value.attestation.value.subjectKid == Sha(own)
      ==> (RunSteps(t, steps).issued[k].key.x == own <==> NamesItself(steps[i]))
  {
    EveryRunKeeps(t, steps);
    var c := RunSteps(t, steps).issued[k];
    var m: nat, kid :| TracedAt(steps, t, c, m, kid);
    MintedOnce(steps, i, m);
  }

  ghost predicate EarnedForKey(steps: seq<Step>, t: Terms, c: Credential) {
    c.basis.Challenge? ==> EverEarned(steps, t, c.basis.challengeId, c.usdot, Thumbprint(c.key))
  }

  ghost predicate AttestedForKey(steps: seq<Step>, c: Credential) {
    c.basis.Attestation? ==> exists i: nat :: i < |steps| && AttestedAt(steps[i], c)
  }

  /** This step presented the attestation, and it is about the credential's entity and key. */
  predicate AttestedAt(s: Step, c: Credential) { NewCredential(s) == Some(c.credentialId) && Vouched(s, c, Thumbprint(c.key)) }

  /** If every issue presents its key by its thumbprint, every proof was about the key of the credential that rests on it. */
  lemma ProofsAreBoundToTheKey(t: Terms, steps: seq<Step>)
    requires FreshIds(steps) && t.settings.maxAttempts >= 1 && forall i :: 0 <= i < |steps| ==> NamesItself(steps[i])
    ensures forall k :: k in RunSteps(t, steps).issued ==>
      EarnedForKey(steps, t, RunSteps(t, steps).issued[k]) && AttestedForKey(steps, RunSteps(t, steps).issued[k])
  {
    EveryRunKeeps(t, steps);
    forall k | k in RunSteps(t, steps).issued
      ensures EarnedForKey(steps, t, RunSteps(t, steps).issued[k]) && AttestedForKey(steps, RunSteps(t, steps).issued[k])
    {
      var c := RunSteps(t, steps).issued[k];
      var i: nat, kid :| TracedAt(steps, t, c, i, kid);
      assert NamesItself(steps[i]) && kid == Thumbprint(c.key);
      if c.basis.Attestation? { assert AttestedAt(steps[i], c); }
    }
  }

  /** A code sent for one key, answered; and a key of somebody else's, calling itself by the first one's thumbprint, presented on it. */
  function Intercepted(own: string, thief: string): seq<Step> {
    [SendCode("h", "1", Sha(own), "c", "mailbox", 0), AnswerCode("h", "c", 0),
     IssueCredential(IssueRequest("k", "1", Jwk(thief, Some(Sha(own))), Some(ByChallenge("h"))), Facts(true, "", false), 0)]
  }

  lemma RunOneMore(t: Terms, steps: seq<Step>, s: Step)
    ensures RunSteps(t, steps + [s]) == Next(RunSteps(t, steps), t, s)
  {
    assert (steps + [s])[..|steps|] == steps;
  }

  lemma CodeIsNotTrimmed()
    ensures Trim("c") == "c"
  {
  }

  /** The run from the founding: the credential is for the thief's key, and rests on the challenge sent for the other. */
  lemma InterceptedAnswerServesAnotherKey(t: Terms, own: string, thief: string)
    requires t.settings.ttlMs > 0 && t.settings.maxAttempts >= 1 && REGISTRY_CONTACT_CHALLENGE in t.policy.accept && own != thief
    ensures FreshIds(Intercepted(own, thief))
    ensures var v := RunSteps(t, Intercepted(own, thief));
      "k" in v.issued && v.issued["k"].basis == Challenge("h") && v.issued["k"].key.x == thief && Intercepted(own, thief)[0].kid == Sha(own)
  {
    var steps := Intercepted(own, thief);
    RunOneMore(t, [], steps[0]);
    RunOneMore(t, [steps[0]], steps[1]);
    RunOneMore(t, [steps[0], steps[1]], steps[2]);
    assert [] + [steps[0]] == [steps[0]] && [steps[0]] + [steps[1]] == [steps[0], steps[1]] && [steps[0], steps[1]] + [steps[2]] == steps;
    CodeIsNotTrimmed();
    var sent := Next(Founded, t, steps[0]);
    assert RunSteps(t, [steps[0]]) == sent;
    var answered := Next(sent, t, steps[1]);
    assert answered.store.challenges["h"].satisfiedAt.Some?;
    assert EvaluateControl(answered.store, t.policy, Some(ByChallenge("h")), "1", Sha(own), "", 0).Proven?;
  }

  // ---------------------------------------------------------------- what the assumptions are for

  /** With no tries allowed at all, the first correct answer is still accepted. */
  lemma FirstTryIsNeverCounted(id: string, c: Row, o: Settings, answer: string, now: int)
    requires c.deadAt.None? && c.consumedAt.None? && c.satisfiedAt.None? && now < c.expiresAt && Trim(answer) == c.code
    ensures Judge(id, c, o, answer, now).1.Accepted?
  {
  }

  /** Once answered, a challenge proves control however long its code has expired, until it is spent or swept. */
  lemma AnswerOutlivesCode(s: Store, o: Settings, id: string, answer: string, at: int, p: Policy, later: int)
    requires Verified(s, o, id, answer, at).1.Accepted? && REGISTRY_CONTACT_CHALLENGE in p.accept
    ensures var after := Verified(s, o, id, answer, at).0;
      var ch := after.challenges[id];
      EvaluateControl(after, p, Some(ByChallenge(id)), ch.usdot, ch.subjectKid, "", later).Proven?
  {
  }

  /**
   The original evaluates the proof, waits for vetting, and only then mints and spends. Two issues on one challenge that
   both evaluate before either completes both mint: the result above is about `issue` as one step. If the second
   evaluates after the first has completed, it is refused.
   */
  lemma InterleavedIssuesShareAChallenge(v: Venue, t: Terms, first: IssueRequest, second: IssueRequest, f: Facts, now: int)
    requires first.proof.Some? && first.proof.value.ByChallenge? && first.proof.value.challengeId != ""
    requires second == first.(credentialId := second.credentialId) && first.credentialId != second.credentialId
    requires Decided(v, t, first, f, now).Ok?
    ensures Decided(v, t, second, f, now) == Decided(v, t, first, f, now)
    ensures var control := Decided(v, t, first, f, now).value;
      var once := Completed(v, t, first, control, now).0;
      && !OneEach(Completed(once, t, second, control, now).0)
      && Decided(once, t, second, f, now) == Err(NoControl(CONTROL_PROOF_REPLAYED))
  {
    var control := Decided(v, t, first, f, now).value;
    var once := Completed(v, t, first, control, now).0;
    var twice := Completed(once, t, second, control, now).0;
    assert twice.issued[first.credentialId].basis == twice.issued[second.credentialId].basis == Challenge(first.proof.value.challengeId);
  }

  lemma AttestedControl(v: Venue, t: Terms, req: IssueRequest, f: Facts, now: int, m: Method, a: ControlAttestation)
    requires req.proof == Some(ByAttestation(m, Some(a))) && Issued(v, t, req, f, now).1.Minted?
    ensures Decided(v, t, req, f, now) == Ok(EvaluateAttestation(v.store, t.policy, m, Some(a), req.usdot, KidOf(req.key), now))
    ensures Decided(v, t, req, f, now).value.Proven? && Decided(v, t, req, f, now).value.jti == Some(a.jti) && a.jti !in v.store.spent
    ensures Issued(v, t, req, f, now).0.store == v.store.(spent := if a.jti != "" then v.store.spent[a.jti := now] else v.store.spent)
  {
  }

  lemma OwnCredentialDoesNotBind(v: Venue, c: Credential, store: Store, now: int)
    requires !BoundElsewhere(v, c.usdot, c.key.x, now)
    ensures !BoundElsewhere(Recorded(v, c, store), c.usdot, c.key.x, now)
  {
  }

  /**
   An attestation is good for one credential exactly when it carries an id: presented again at once for a fresh
   credential, it is refused as replayed, or, if its id is empty, mints a second credential on the same basis.
   */
  lemma AttestationMintsAgainExactlyWhenUnnumbered(
      v: Venue, t: Terms, first: IssueRequest, second: IssueRequest, f: Facts, now: int, m: Method, a: ControlAttestation)
    requires first.proof == Some(ByAttestation(m, Some(a)))
    requires second == first.(credentialId := second.credentialId) && first.credentialId != second.credentialId
    requires Issued(v, t, first, f, now).1.Minted?
    ensures var once := Issued(v, t, first, f, now).0;
      var (twice, again) := Issued(once, t, second, f, now);
      && (again.Minted? <==> a.jti == "")
      && (a.jti != "" ==> again == NoControl(CONTROL_PROOF_REPLAYED) && twice == once)
      && (a.jti == "" ==>
            && first.credentialId in twice.issued && second.credentialId in twice.issued
            && twice.issued[first.credentialId].basis == twice.issued[second.credentialId].basis == Attestation(""))
  {
    AttestedControl(v, t, first, f, now, m, a);
    var once := Issued(v, t, first, f, now).0;
    OwnCredentialDoesNotBind(v, Issued(v, t, first, f, now).1.credential, once.store, now);
    var kid := KidOf(first.key);
    if a.jti == "" {
      assert once.store == v.store;
      assert Decided(once, t, second, f, now) == Decided(v, t, first, f, now);
    } else {
      assert EvaluateAttestation(once.store, t.policy, m, Some(a), first.usdot, kid, now) == Refused(CONTROL_PROOF_REPLAYED);
    }
  }
}
