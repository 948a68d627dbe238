/**
 The venue's record of challenges it sent and proofs it has spent (src/identity/control-store.ts), and
 the decision on a proof of control (src/protocol/control.ts).

 Challenge ids and codes are random in the original and arguments here.
 */
module ControlStore {
  import opened Wrappers
  import opened RootLog

  datatype Row = Row(
    usdot: string, subjectKid: Digest, code: string, sentTo: string, issuedAt: int, expiresAt: int, attempts: int,
    satisfiedAt: Option<int>, consumedAt: Option<int>, deadAt: Option<int>)

  datatype Store = Store(challenges: map<string, Row>, spent: map<string, int>)

  datatype Settings = Settings(ttlMs: int, maxAttempts: int)

  datatype Satisfied = Satisfied(challengeId: string, usdot: string, subjectKid: Digest, satisfiedAt: int, sentTo: string, consumedAt: Option<int>)

  datatype Verdict = NoSuch | Closed | Used | Expired | Wrong(attemptsLeft: int) | Accepted(challenge: Satisfied)

  predicate Blank(c: char) { c == ' ' || c == '\t' || c == '\n' || c == '\r' }

  function TrimStart(s: string): string { if s != "" && Blank(s[0]) then TrimStart(s[1..]) else s }

  function TrimEnd(s: string): string { if s != "" && Blank(s[|s| - 1]) then TrimEnd(s[..|s| - 1]) else s }

  function Trim(s: string): string { TrimEnd(TrimStart(s)) }

  function ViewOf(id: string, c: Row): Satisfied
    requires c.satisfiedAt.Some?
  {
    Satisfied(id, c.usdot, c.subjectKid, c.satisfiedAt.value, c.sentTo, c.consumedAt)
  }

  function Sent(s: Store, o: Settings, id: string, usdot: string, kid: Digest, code: string, sentTo: string, now: int): Store {
    s.(challenges := s.challenges[id := Row(usdot, kid, code, sentTo, now, now + o.ttlMs, 0, None, None, None)])
  }

  function Judge(id: string, c: Row, o: Settings, answer: string, now: int): (Row, Verdict) {
    if c.deadAt.Some? then (c, Closed)
    else if c.consumedAt.Some? then (c, Used)
    else if c.expiresAt <= now then (c.(deadAt := Some(now)), Expired)
    else if c.satisfiedAt.Some? then (c, Accepted(ViewOf(id, c)))
    else
      var tried := c.(attempts := c.attempts + 1);
      var left := o.maxAttempts - tried.attempts;
      if Trim(answer) != c.code then (if left <= 0 then tried.(deadAt := Some(now)) else tried, Wrong(if left > 0 then left else 0))
      else
        var done := tried.(satisfiedAt := Some(now));
        (done, Accepted(ViewOf(id, done)))
  }

  function Verified(s: Store, o: Settings, id: string, answer: string, now: int): (Store, Verdict) {
    if id !in s.challenges then (s, NoSuch)
    else
      var (c, v) := Judge(id, s.challenges[id], o, answer, now);
      (s.(challenges := s.challenges[id := c]), v)
  }

  function SatisfiedIn(s: Store, id: string): Option<Satisfied> {
    if id in s.challenges && s.challenges[id].satisfiedAt.Some? then Some(ViewOf(id, s.challenges[id])) else None
  }

  function Consumed(s: Store, id: Option<string>, jti: Option<string>, now: int): Store {
    var challenges := if id.Some? && id.value != "" && id.value in s.challenges
      then s.challenges[id.value := s.challenges[id.value].(consumedAt := Some(now))] else s.challenges;
    Store(challenges, if jti.Some? && jti.value != "" then s.spent[jti.value := now] else s.spent)
  }

  /** When a challenge stopped being of use. */
  function Ended(c: Row): int {
    if c.consumedAt.Some? then c.consumedAt.value else if c.deadAt.Some? then c.deadAt.value else c.expiresAt
  }

  function Swept(s: Store, now: int, keepMs: int): Store {
    s.(challenges := map id | id in s.challenges && now - Ended(s.challenges[id]) <= keepMs :: s.challenges[id])
  }

  class ControlStore {
    const settings: Settings
    var challenges: map<string, Row>
    var spent: map<string, int>

    constructor (settings: Settings, stored: Store)
      ensures this.settings == settings && View() == stored
    {
      this.settings := settings;
      challenges, spent := stored.challenges, stored.spent;
    }

    function View(): Store
      reads this
    {
      Store(challenges, spent)
    }

    method Issue(id: string, usdot: string, subjectKid: Digest, code: string, sentTo: string, now: int)
      modifies this`challenges
      ensures View() == Sent(old(View()), settings, id, usdot, subjectKid, code, sentTo, now)
    {
      challenges := challenges[id := Row(usdot, subjectKid, code, sentTo, now, now + settings.ttlMs, 0, None, None, None)];
    }

    method Verify(id: string, answer: string, now: int) returns (v: Verdict)
      modifies this`challenges
      ensures (View(), v) == Verified(old(View()), settings, id, answer, now)
    {
      if id !in challenges { return NoSuch; }
      var c := challenges[id];
      assert challenges[id := c] == challenges;
      if c.deadAt.Some? { return Closed; }
      if c.consumedAt.Some? { return Used; }
      if c.expiresAt <= now {
        challenges := challenges[id := c.(deadAt := Some(now))];
        return Expired;
      }
      if c.satisfiedAt.Some? { return Accepted(ViewOf(id, c)); }
      c := c.(attempts := c.attempts + 1);
      if Trim(answer) != c.code {
        var left := settings.maxAttempts - c.attempts;
        if left <= 0 { c := c.(deadAt := Some(now)); }
        challenges := challenges[id := c];
        return Wrong(if left > 0 then left else 0);
      }
      c := c.(satisfiedAt := Some(now));
      challenges := challenges[id := c];
      return Accepted(ViewOf(id, c));
    }

    method Satisfied(id: string) returns (r: Option<Satisfied>)
      ensures r == SatisfiedIn(View(), id)
    {
      if id in challenges && challenges[id].satisfiedAt.Some? { return Some(ViewOf(id, challenges[id])); }
      return None;
    }

    method Seen(jti: string) returns (r: bool)
      ensures r <==> jti in View().spent
    {
      return jti in spent;
    }

    method Consume(id: Option<string>, jti: Option<string>, now: int)
      modifies this
      ensures View() == Consumed(old(View()), id, jti, now)
    {
      if id.Some? && id.value != "" && id.value in challenges {
        challenges := challenges[id.value := challenges[id.value].(consumedAt := Some(now))];
      }
      if jti.Some? && jti.value != "" { spent := spent[jti.value := now]; }
    }

    method Sweep(now: int, keepMs: int) returns (size: nat)
      modifies this`challenges
      ensures View() == Swept(old(View()), now, keepMs)
      ensures size == |challenges|
    {
      var left := challenges.Keys;
      while left != {}
        invariant left <= old(challenges).Keys
        invariant forall k :: k in challenges <==> k in old(challenges) && (k in left || now - Ended(old(challenges)[k]) <= keepMs)
        invariant forall k :: k in challenges ==> challenges[k] == old(challenges)[k]
        decreases |left|
      {
        var k :| k in left;
        left := left - {k};
        if now - Ended(challenges[k]) > keepMs { challenges := challenges - {k}; }
      }
      assert challenges == Swept(old(View()), now, keepMs).challenges;
      return |challenges|;
    }
  }

  // ---------------------------------------------------------------- the decision on a proof

  datatype Method = REGISTRY_CONTACT_CHALLENGE | VETTING_PROVIDER_ASSERTION | OPERATOR_ATTESTED | SIM_STUB_TOKEN

  /** A verifier's signed statement about one key; a date that is not one is absent. */
  datatype ControlAttestation = ControlAttestation(
    schemaOk: bool, verifierId: string, usdot: string, subjectKid: Digest, how: Method,
    verifiedAt: Option<int>, expiresAt: Option<int>, jti: string, kid: Digest, signedBy: Option<string>)

  datatype Proof =
    | ByChallenge(challengeId: string)
    | ByAttestation(presented: Method, attestation: Option<ControlAttestation>)
    | ByStub(token: string)

  datatype VerifierKey = VerifierKey(verifierId: string, x: string, kid: Option<Digest>, methods: Option<seq<Method>>)

  datatype Policy = Policy(verifiers: seq<VerifierKey>, accept: seq<Method>, maxAgeMs: int)

  datatype Refusal =
    | CONTROL_PROOF_MISSING | CONTROL_METHOD_NOT_ACCEPTED | ONBOARDING_PROOF_OF_CONTROL_FAILED | CONTROL_CHALLENGE_FAILED
    | CONTROL_PROOF_REPLAYED | CONTROL_PROOF_NOT_BOUND_TO_KEY | CONTROL_VERIFIER_UNTRUSTED | CONTROL_PROOF_EXPIRED

  datatype Control = Proven(how: Method, verifierId: Option<string>, verifiedAt: int, jti: Option<string>) | Refused(reason: Refusal)

  function MethodOf(p: Proof): Method {
    match p case ByChallenge(_) => REGISTRY_CONTACT_CHALLENGE case ByAttestation(m, _) => m case ByStub(_) => SIM_STUB_TOKEN
  }

  function FindVerifier(vs: seq<VerifierKey>, id: string): Option<VerifierKey> {
    if vs == [] then None else if vs[0].verifierId == id then Some(vs[0]) else FindVerifier(vs[1..], id)
  }

  function EvaluateChallenge(ch: Option<Satisfied>, usdot: string, kid: Digest): Control {
    if ch.None? then Refused(CONTROL_CHALLENGE_FAILED)
    else if ch.value.consumedAt.Some? then Refused(CONTROL_PROOF_REPLAYED)
    else if ch.value.usdot != usdot then Refused(CONTROL_CHALLENGE_FAILED)
    else if ch.value.subjectKid != kid then Refused(CONTROL_PROOF_NOT_BOUND_TO_KEY)
    else Proven(REGISTRY_CONTACT_CHALLENGE, None, ch.value.satisfiedAt, None)
  }

  function EvaluateAttestation(s: Store, p: Policy, presented: Method, a: Option<ControlAttestation>, usdot: string, kid: Digest, now: int): Control {
    if a.None? || !a.value.schemaOk then Refused(CONTROL_PROOF_MISSING)
    else if a.value.how != presented then Refused(CONTROL_METHOD_NOT_ACCEPTED)
    else if a.value.usdot != usdot then Refused(CONTROL_CHALLENGE_FAILED)
    else if a.value.subjectKid != kid then Refused(CONTROL_PROOF_NOT_BOUND_TO_KEY)
    else
      var v := FindVerifier(p.verifiers, a.value.verifierId);
      if v.None? then Refused(CONTROL_VERIFIER_UNTRUSTED)
      else if v.value.methods.Some? && a.value.how !in v.value.methods.value then Refused(CONTROL_METHOD_NOT_ACCEPTED)
      else if v.value.kid.Some? && a.value.kid != v.value.kid.value then Refused(CONTROL_VERIFIER_UNTRUSTED)
      else if a.value.signedBy != Some(v.value.x) then Refused(CONTROL_VERIFIER_UNTRUSTED)
      else if a.value.verifiedAt.None? || a.value.expiresAt.None? then Refused(CONTROL_PROOF_EXPIRED)
      else if now > a.value.expiresAt.value then Refused(CONTROL_PROOF_EXPIRED)
      else if now - a.value.verifiedAt.value > p.maxAgeMs then Refused(CONTROL_PROOF_EXPIRED)
      else if a.value.jti in s.spent then Refused(CONTROL_PROOF_REPLAYED)
      else Proven(a.value.how, Some(a.value.verifierId), a.value.verifiedAt.value, Some(a.value.jti))
  }

  function EvaluateControl(s: Store, p: Policy, proof: Option<Proof>, usdot: string, kid: Digest, stubToken: string, now: int): Control {
    if proof.None? then Refused(CONTROL_PROOF_MISSING)
    else if MethodOf(proof.value) !in p.accept then Refused(CONTROL_METHOD_NOT_ACCEPTED)
    else
      match proof.value
      case ByStub(token) => if stubToken == "" || token != stubToken then Refused(ONBOARDING_PROOF_OF_CONTROL_FAILED) else Proven(SIM_STUB_TOKEN, None, now, None)
      case ByChallenge(id) => EvaluateChallenge(SatisfiedIn(s, id), usdot, kid)
      case ByAttestation(m, a) => EvaluateAttestation(s, p, m, a, usdot, kid, now)
  }

  /** A statement is taken as proof exactly when all of this holds: a pinned verifier signed it, about this entity and key, by a method it may use, undisputed in date, and it was not spent before. */
  ghost predicate Vouches(s: Store, p: Policy, presented: Method, a: ControlAttestation, usdot: string, kid: Digest, now: int) {
    && a.schemaOk && a.how == presented && a.usdot == usdot && a.subjectKid == kid && a.jti !in s.spent
    && a.verifiedAt.Some? && a.expiresAt.Some? && now <= a.expiresAt.value && now - a.verifiedAt.value <= p.maxAgeMs
    && exists v :: FindVerifier(p.verifiers, a.verifierId) == Some(v) && a.signedBy == Some(v.x)
         && (v.methods.Some? ==> a.how in v.methods.value) && (v.kid.Some? ==> a.kid == v.kid.value)
  }

  lemma AttestationTakenExactlyWhenVouched(s: Store, p: Policy, presented: Method, a: ControlAttestation, usdot: string, kid: Digest, now: int)
    ensures EvaluateAttestation(s, p, presented, Some(a), usdot, kid, now).Proven? <==> Vouches(s, p, presented, a, usdot, kid, now)
  {
    var v := FindVerifier(p.verifiers, a.verifierId);
    if v.Some? { assert v == Some(v.value); }
  }

  /** What a proof is spent by: its challenge or its one-time id. */
  function Spend(s: Store, proof: Option<Proof>, c: Control, now: int): Store
    requires c.Proven?
  {
    Consumed(s, if proof.Some? && proof.value.ByChallenge? then Some(proof.value.challengeId) else None, c.jti, now)
  }

  // ---------------------------------------------------------------- what the store remembers over any run

  datatype StoreStep =
    | Send(id: string, usdot: string, kid: Digest, code: string, sentTo: string, at: int)
    | Answer(id: string, answer: string, at: int)
    | Spending(challengeId: Option<string>, jti: Option<string>, at: int)
    | Sweeping(at: int, keepMs: int)

  function StoreNext(s: Store, o: Settings, step: StoreStep): Store {
    match step
    case Send(id, usdot, kid, code, sentTo, at) => Sent(s, o, id, usdot, kid, code, sentTo, at)
    case Answer(id, answer, at) => Verified(s, o, id, answer, at).0
    case Spending(id, jti, at) => Consumed(s, id, jti, at)
    case Sweeping(at, keepMs) => Swept(s, at, keepMs)
  }

  function StoreRun(s: Store, o: Settings, steps: seq<StoreStep>): Store {
    if steps == [] then s else StoreNext(StoreRun(s, o, steps[..|steps| - 1]), o, steps[|steps| - 1])
  }

  predicate SpendsId(step: StoreStep, jti: string) { step.Spending? && step.jti == Some(jti) && jti != "" }

  ghost predicate EverSpent(steps: seq<StoreStep>, jti: string) { exists i :: 0 <= i < |steps| && SpendsId(steps[i], jti) }

  /** An id counts as seen exactly if it was seen at the start or some step spent it since; sweeps do not forget it, and the empty id is never seen anew. */
  lemma {:induction false} SeenExactlyWhenSpent(s: Store, o: Settings, steps: seq<StoreStep>, jti: string)
    ensures jti in StoreRun(s, o, steps).spent <==> jti in s.spent || EverSpent(steps, jti)
  {
    if steps != [] {
      var n := |steps| - 1;
      SeenExactlyWhenSpent(s, o, steps[..n], jti);
      assert EverSpent(steps, jti) <==> EverSpent(steps[..n], jti) || SpendsId(steps[n], jti) by {
        if EverSpent(steps, jti) {
          var i :| 0 <= i < |steps| && SpendsId(steps[i], jti);
          if i < n { assert steps[..n][i] == steps[i]; }
        }
        if EverSpent(steps[..n], jti) {
          var i :| 0 <= i < n && SpendsId(steps[..n][i], jti);
          assert steps[i] == steps[..n][i];
        }
      }
    }
  }

  /** Step `j` accepted an answer to the challenge, and since then it has been neither sent anew nor swept away. */
  ghost predicate AcceptedSince(s: Store, o: Settings, steps: seq<StoreStep>, id: string, j: nat) {
    && j < |steps| && steps[j].Answer? && steps[j].id == id
    && Verified(StoreRun(s, o, steps[..j]), o, id, steps[j].answer, steps[j].at).1.Accepted?
    && forall k: nat :: j < k < |steps| ==> Undisturbed(s, o, steps, id, k)
  }

  ghost predicate Undisturbed(s: Store, o: Settings, steps: seq<StoreStep>, id: string, k: nat)
    requires k < |steps|
  {
    !(steps[k].Send? && steps[k].id == id) && id in StoreRun(s, o, steps[..k + 1]).challenges
  }

  lemma AcceptedStays(s: Store, o: Settings, steps: seq<StoreStep>, id: string, j: nat)
    requires steps != [] && j < |steps| - 1 && Undisturbed(s, o, steps, id, |steps| - 1)
    ensures AcceptedSince(s, o, steps, id, j) <==> AcceptedSince(s, o, steps[..|steps| - 1], id, j)
  {
    var n := |steps| - 1;
    var before := steps[..n];
    assert before[..j] == steps[..j];
    forall k: nat | j < k < n ensures Undisturbed(s, o, before, id, k) <==> Undisturbed(s, o, steps, id, k) {
      assert before[..k + 1] == steps[..k + 1];
    }
  }

  predicate Accepts(s: Store, o: Settings, step: StoreStep, id: string) {
    step.Answer? && step.id == id && Verified(s, o, id, step.answer, step.at).1.Accepted?
  }

  lemma SatisfiedAfterStep(s: Store, o: Settings, step: StoreStep, id: string)
    ensures var t := StoreNext(s, o, step);
      SatisfiedIn(t, id).Some? <==>
        Accepts(s, o, step, id) || (SatisfiedIn(s, id).Some? && !(step.Send? && step.id == id) && id in t.challenges)
  {
  }

  ghost predicate EverAccepted(s: Store, o: Settings, steps: seq<StoreStep>, id: string) { exists j: nat :: AcceptedSince(s, o, steps, id, j) }

  lemma EverAcceptedStep(s: Store, o: Settings, steps: seq<StoreStep>, id: string)
    requires steps != []
    ensures var n := |steps| - 1;
      EverAccepted(s, o, steps, id) <==>
        Accepts(StoreRun(s, o, steps[..n]), o, steps[n], id) || (EverAccepted(s, o, steps[..n], id) && Undisturbed(s, o, steps, id, n))
  {
    var n := |steps| - 1;
    if Accepts(StoreRun(s, o, steps[..n]), o, steps[n], id) { assert AcceptedSince(s, o, steps, id, n); }
    if EverAccepted(s, o, steps[..n], id) && Undisturbed(s, o, steps, id, n) {
      var j: nat :| AcceptedSince(s, o, steps[..n], id, j);
      AcceptedStays(s, o, steps, id, j);
    }
    if j: nat :| AcceptedSince(s, o, steps, id, j) {
      if j < n {
        assert Undisturbed(s, o, steps, id, n);
        AcceptedStays(s, o, steps, id, j);
      }
    }
  }

  /** From a store with no challenges, a challenge shows as satisfied exactly when an answer to it was accepted since it was last sent, and it is still there. */
  lemma {:induction false} SatisfiedExactlyWhenAccepted(s: Store, o: Settings, steps: seq<StoreStep>, id: string)
    requires s.challenges == map[]
    ensures SatisfiedIn(StoreRun(s, o, steps), id).Some? <==> EverAccepted(s, o, steps, id)
  {
    if steps != [] {
      var n := |steps| - 1;
      SatisfiedExactlyWhenAccepted(s, o, steps[..n], id);
      EverAcceptedStep(s, o, steps, id);
      SatisfiedAfterStep(StoreRun(s, o, steps[..n]), o, steps[n], id);
      assert steps[..n + 1] == steps;
    }
  }
}
