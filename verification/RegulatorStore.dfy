/**
 The registry's own copy of each regulator's key log (src/registry/store.ts): bootstrapped once from
 an establishment event, then extended only by events the walk from that root accepts.
 */
module RegulatorStore {
  import opened Wrappers
  import opened Sequences
  import opened RootLog
  import opened RootLogTheorems

  datatype Refusal = NOT_ESTABLISHMENT | KNOWN_BY_ANOTHER_ROOT | UNKNOWN_REGULATOR | DOES_NOT_EXTEND

  type Logs = map<string, seq<RootEvent>>

  predicate Pinnable(e: RootEvent) {
    SelfSigned(e) && e.reason == ESTABLISHMENT && e.seqNo == 0
  }

  function PinResult(logs: Logs, id: string, e: RootEvent): Result<Logs, Refusal> {
    if !Pinnable(e) then Err(NOT_ESTABLISHMENT)
    else if id in logs && (logs[id] == [] || logs[id][0].rootKid != e.rootKid) then Err(KNOWN_BY_ANOTHER_ROOT)
    else if id in logs then Ok(logs)
    else Ok(logs[id := [e]])
  }

  predicate HasSeq(log: seq<RootEvent>, n: int) {
    exists i :: 0 <= i < |log| && log[i].seqNo == n
  }

  predicate RejectsSeq(rejected: seq<Rejection>, n: int) {
    exists i :: 0 <= i < |rejected| && rejected[i].seqNo == n
  }

  /** The registry's test: does the walk from the root it bootstrapped take this event in? */
  predicate Accepts(log: seq<RootEvent>, e: RootEvent)
    requires log != []
  {
    var w := Walk(log[0].rootKey, log + [e]);
    !RejectsSeq(w.rejected, e.seqNo) && e.rootKid in w.roots
  }

  function AcceptResult(logs: Logs, id: string, e: RootEvent): Result<Logs, Refusal> {
    if id !in logs || logs[id] == [] then Err(UNKNOWN_REGULATOR)
    else if HasSeq(logs[id], e.seqNo) then Ok(logs)
    else if Accepts(logs[id], e) then Ok(logs[id := logs[id] + [e]])
    else Err(DOES_NOT_EXTEND)
  }

  class Registry {
    var regulators: Logs

    constructor (stored: Logs)
      ensures regulators == stored
    {
      regulators := stored;
    }

    method PinRegulator(id: string, establishment: RootEvent) returns (r: Result<(), Refusal>)
      modifies this
      ensures r.Ok? <==> PinResult(old(regulators), id, establishment).Ok?
      ensures r.Ok? ==> regulators == PinResult(old(regulators), id, establishment).value
      ensures r.Err? ==> regulators == old(regulators) && r.error == PinResult(old(regulators), id, establishment).error
    {
      if !SelfSigned(establishment) || establishment.reason != ESTABLISHMENT || establishment.seqNo != 0 {
        return Err(NOT_ESTABLISHMENT);
      }
      if id in regulators {
        if regulators[id] == [] || regulators[id][0].rootKid != establishment.rootKid {
          return Err(KNOWN_BY_ANOTHER_ROOT);
        }
      } else {
        regulators := regulators[id := [establishment]];
      }
      return Ok(());
    }

    method AcceptRegulatorEvent(id: string, event: RootEvent) returns (r: Result<(), Refusal>)
      modifies this
      ensures r.Ok? <==> AcceptResult(old(regulators), id, event).Ok?
      ensures r.Ok? ==> regulators == AcceptResult(old(regulators), id, event).value
      ensures r.Err? ==> regulators == old(regulators) && r.error == AcceptResult(old(regulators), id, event).error
    {
      if id !in regulators || regulators[id] == [] { return Err(UNKNOWN_REGULATOR); }
      var log := regulators[id];
      for i := 0 to |log|
        invariant forall j :: 0 <= j < i ==> log[j].seqNo != event.seqNo
      {
        if log[i].seqNo == event.seqNo { return Ok(()); }
      }
      var walk := WalkRootLog(log[0].rootKey, log + [event]);
      var refused := false;
      for i := 0 to |walk.rejected|
        invariant refused <==> exists j :: 0 <= j < i && walk.rejected[j].seqNo == event.seqNo
      {
        if walk.rejected[i].seqNo == event.seqNo { refused := true; }
      }
      if refused || event.rootKid !in walk.roots { return Err(DOES_NOT_EXTEND); }
      regulators := regulators[id := log + [event]];
      return Ok(());
    }
  }

  // ---------------------------------------------------------------- runs of calls

  datatype Call = Pin(id: string, event: RootEvent) | Accept(id: string, event: RootEvent)

  function Apply(logs: Logs, c: Call): Logs {
    var r := match c case Pin(id, e) => PinResult(logs, id, e) case Accept(id, e) => AcceptResult(logs, id, e);
    if r.Ok? then r.value else logs
  }

  function RunCalls(logs: Logs, calls: seq<Call>): Logs
    decreases |calls|
  {
    if calls == [] then logs else RunCalls(Apply(logs, calls[0]), calls[1..])
  }

  /** What every stored log looks like: one line of succession, in strictly increasing sequence, from a bootstrapped root. */
  ghost predicate Line(log: seq<RootEvent>) {
    && log != []
    && Pinnable(log[0])
    && KidOf(log[0].rootKey) == log[0].rootKid
    && StrictlyAscending(log, BySeq)
    && Linked(log[0], log[1..])
  }

  // ---------------------------------------------------------------- walking a line with one event more

  function AdmitAll(roots: map<Digest, RootInfo>, cur: RootEvent, line: seq<RootEvent>): map<Digest, RootInfo>
    decreases |line|
  {
    if line == [] then roots else AdmitAll(Admit(roots, cur, line[0]), line[0], line[1..])
  }

  function LastOf(cur: RootEvent, line: seq<RootEvent>): RootEvent {
    if line == [] then cur else line[|line| - 1]
  }

  lemma {:induction false} ForwardThrough(line: seq<RootEvent>, rest: seq<RootEvent>, cur: RootEvent, roots: map<Digest, RootInfo>, rejected: seq<Rejection>)
    requires Linked(cur, line)
    ensures Forward(line + rest, cur, roots, rejected) == Forward(rest, LastOf(cur, line), AdmitAll(roots, cur, line), rejected)
    decreases |line|
  {
    if line == [] {
      assert line + rest == rest;
    } else {
      assert (line + rest)[1..] == line[1..] + rest;
      ForwardThrough(line[1..], rest, line[0], Admit(roots, cur, line[0]), rejected);
    }
  }

  lemma {:induction false} RejectionsKept(es: seq<RootEvent>, cur: RootEvent, roots: map<Digest, RootInfo>, rejected: seq<Rejection>)
    ensures rejected <= Forward(es, cur, roots, rejected).rejected
  {
    if es != [] {
      if Succeeds(cur, es[0]) {
        RejectionsKept(es[1..], es[0], Admit(roots, cur, es[0]), rejected);
      } else {
        RejectionsKept(es[1..], cur, roots, rejected + [Rejection(es[0].seqNo, WhyNot(cur, es[0]))]);
      }
    }
  }

  lemma {:induction false} AboveAll(es: seq<RootEvent>, n: int)
    requires forall i :: 0 <= i < |es| ==> es[i].seqNo > n
    ensures Above(es, n) == es
  {
    if es != [] {
      AboveAll(es[1..], n);
      assert es == [es[0]] + es[1..];
    }
  }

  /** The backward half of a walk from an establishment: one complaint if it names a predecessor, none if it does not. */
  function Ancestry(first: RootEvent): seq<Rejection> {
    if Predecessor(first).None? then [] else [Rejection(first.seqNo - 1, BROKEN_PREDECESSOR)]
  }

  lemma {:induction false} NoParentBelow(es: seq<RootEvent>, kid: Digest, n: int)
    requires forall i :: 0 <= i < |es| ==> es[i].seqNo > n
    ensures FindParent(es, kid, n).None?
  {
    if es != [] { NoParentBelow(es[1..], kid, n); }
  }

  lemma FirstIsLeast(g: seq<RootEvent>)
    requires g != [] && StrictlyAscending(g, BySeq)
    ensures Above(g, g[0].seqNo) == g[1..]
    ensures forall i :: 0 <= i < |g| ==> g[i].seqNo > g[0].seqNo - 1
  {
    forall i | 0 <= i < |g| ensures g[i].seqNo > g[0].seqNo - 1 { if i > 0 { assert BySeq(g[0]) < BySeq(g[i]); } }
    forall i | 0 <= i < |g[1..]| ensures g[1..][i].seqNo > g[0].seqNo { assert BySeq(g[0]) < BySeq(g[i + 1]); }
    AboveAll(g[1..], g[0].seqNo);
  }

  lemma NothingBehind(g: seq<RootEvent>, roots: map<Digest, RootInfo>)
    requires g != [] && StrictlyAscending(g, BySeq)
    ensures Backward(g, g[0], roots) == (roots, Ancestry(g[0]))
  {
    FirstIsLeast(g);
    if Predecessor(g[0]).Some? { NoParentBelow(g, Predecessor(g[0]).value, g[0].seqNo - 1); }
  }

  lemma WalkOfAscending(g: seq<RootEvent>, log: seq<RootEvent>)
    requires g != [] && StrictlyAscending(g, BySeq) && multiset(log) == multiset(g)
    requires SelfSigned(g[0]) && KidOf(g[0].rootKey) == g[0].rootKid
    ensures Walk(g[0].rootKey, log) ==
      Forward(g[1..], g[0], map[g[0].rootKid := RootInfo(g[0].rootKey, g[0].seqNo, None)], Ancestry(g[0]))
  {
    SortByOfPermutation(g, log, BySeq);
    assert FindStart(g, g[0].rootKey) == Some(g[0]);
    NothingBehind(g, map[g[0].rootKid := RootInfo(g[0].rootKey, g[0].seqNo, None)]);
    FirstIsLeast(g);
  }

  /** A stored log walks from its first root to its last, and nothing in it is rejected unless the establishment names a predecessor. */
  lemma LineWalks(log: seq<RootEvent>)
    requires Line(log)
    ensures Walk(log[0].rootKey, log).rejected == Ancestry(log[0])
    ensures Walk(log[0].rootKey, log).current == CurrentOf(log[|log| - 1])
  {
    WalkOfAscending(log, log);
    assert log[1..] + [] == log[1..];
    ForwardThrough(log[1..], [], log[0], map[log[0].rootKid := RootInfo(log[0].rootKey, log[0].seqNo, None)], Ancestry(log[0]));
  }

  function Place(log: seq<RootEvent>, n: int): (p: nat)
    ensures p <= |log|
    ensures forall i :: 0 <= i < p ==> log[i].seqNo < n
    ensures p < |log| ==> log[p].seqNo >= n
  {
    if log == [] || log[0].seqNo >= n then 0 else 1 + Place(log[1..], n)
  }

  lemma {:induction false} LinkedSplit(cur: RootEvent, line: seq<RootEvent>, p: nat)
    requires Linked(cur, line) && p <= |line|
    ensures Linked(cur, line[..p])
    ensures p < |line| ==> Succeeds(LastOf(cur, line[..p]), line[p])
    decreases p
  {
    if p > 0 {
      LinkedSplit(line[0], line[1..], p - 1);
      assert line[..p][1..] == line[1..][..p - 1];
    }
  }

  lemma {:induction false} LinkedSnoc(cur: RootEvent, line: seq<RootEvent>, e: RootEvent)
    requires Linked(cur, line) && Succeeds(LastOf(cur, line), e)
    ensures Linked(cur, line + [e])
    decreases |line|
  {
    if line == [] {
      assert (line + [e])[1..] == [];
    } else {
      LinkedSnoc(line[0], line[1..], e);
      assert (line + [e])[1..] == line[1..] + [e];
    }
  }

  lemma {:induction false} LinkedSigned(cur: RootEvent, line: seq<RootEvent>)
    requires Linked(cur, line)
    ensures forall i :: 0 <= i < |line| ==> SelfSigned(line[i])
    decreases |line|
  {
    if line != [] {
      LinkedSigned(line[0], line[1..]);
      assert forall i :: 0 < i < |line| ==> line[i] == line[1..][i - 1];
    }
  }

  lemma InsertedIsAscending(log: seq<RootEvent>, e: RootEvent, p: nat)
    requires StrictlyAscending(log, BySeq) && p <= |log|
    requires p > 0 ==> log[p - 1].seqNo < e.seqNo
    requires p < |log| ==> e.seqNo < log[p].seqNo
    ensures StrictlyAscending(log[..p] + [e] + log[p..], BySeq)
  {
    StrictlyAscendingSlice(log, 0, p, BySeq);
    StrictlyAscendingSlice(log, p, |log|, BySeq);
    StrictlyAscendingConcat(log[..p], [e], BySeq);
    StrictlyAscendingConcat(log[..p] + [e], log[p..], BySeq);
  }

  function Placed(log: seq<RootEvent>, e: RootEvent): seq<RootEvent> {
    log[..Place(log, e.seqNo)] + [e] + log[Place(log, e.seqNo)..]
  }

  lemma PlacedIsSorted(log: seq<RootEvent>, e: RootEvent)
    requires log != [] && StrictlyAscending(log, BySeq) && log[0].seqNo == 0 && e.seqNo >= 0 && !HasSeq(log, e.seqNo)
    ensures StrictlyAscending(Placed(log, e), BySeq) && multiset(Placed(log, e)) == multiset(log + [e])
    ensures Place(log, e.seqNo) > 0 && Placed(log, e)[0] == log[0]
  {
    var p := Place(log, e.seqNo);
    assert log[0].seqNo != e.seqNo;
    if p < |log| { assert log[p].seqNo != e.seqNo; }
    InsertedIsAscending(log, e, p);
    InsertKeeps(log, e, p);
  }

  lemma InsertKeeps<T>(s: seq<T>, e: T, p: nat)
    requires p <= |s|
    ensures multiset(s[..p] + [e] + s[p..]) == multiset(s + [e])
  {
    assert s == s[..p] + s[p..];
  }

  /** The walk runs through the stored events below `e`, meets `e`, then the ones above. */
  lemma WalkWithOneMore(log: seq<RootEvent>, e: RootEvent, p: nat) returns (roots: map<Digest, RootInfo>)
    requires Line(log) && e.seqNo >= 0 && !HasSeq(log, e.seqNo) && p == Place(log, e.seqNo)
    ensures 0 < p
    ensures Walk(log[0].rootKey, log + [e]) == Forward([e] + log[p..], log[p - 1], roots, Ancestry(log[0]))
    ensures p < |log| ==> Succeeds(log[p - 1], log[p])
  {
    PlacedIsSorted(log, e);
    WalkOfAscending(Placed(log, e), log + [e]);
    var seed := map[log[0].rootKid := RootInfo(log[0].rootKey, log[0].seqNo, None)];
    roots := AdmitAll(seed, log[0], log[1..][..p - 1]);
    StepThroughLine(log, [e] + log[p..], p, seed);
    PlacedAfterFirst(log, e, p);
  }

  lemma PlacedAfterFirst(log: seq<RootEvent>, e: RootEvent, p: nat)
    requires log != [] && 0 < p == Place(log, e.seqNo)
    ensures Placed(log, e)[1..] == log[1..][..p - 1] + ([e] + log[p..])
  {
  }

  lemma StepThroughLine(log: seq<RootEvent>, tail: seq<RootEvent>, p: nat, seed: map<Digest, RootInfo>)
    requires log != [] && Linked(log[0], log[1..]) && 0 < p <= |log|
    ensures var line := log[1..][..p - 1];
      Forward(line + tail, log[0], seed, Ancestry(log[0])) == Forward(tail, log[p - 1], AdmitAll(seed, log[0], line), Ancestry(log[0]))
    ensures p < |log| ==> Succeeds(log[p - 1], log[p])
  {
    LinkedSplit(log[0], log[1..], p - 1);
    ForwardThrough(log[1..][..p - 1], tail, log[0], seed, Ancestry(log[0]));
    assert LastOf(log[0], log[1..][..p - 1]) == log[p - 1];
  }

  lemma SuccessorIsUnique(cur: RootEvent, e: RootEvent, f: RootEvent)
    requires Succeeds(cur, e) && Succeeds(cur, f) && OneEventPerKey([e, f])
    ensures e == f
  {
    assert e in [e, f] && f in [e, f];
  }

  lemma NoSecondSuccessor(log: seq<RootEvent>, e: RootEvent, cur: RootEvent, p: nat)
    requires OneEventPerKey(log + [e]) && p < |log| && log[p].seqNo != e.seqNo && Succeeds(cur, log[p])
    ensures !Succeeds(cur, e)
  {
    assert e in log + [e] && log[p] in log + [e];
    assert OneEventPerKey([e, log[p]]);
    if Succeeds(cur, e) { SuccessorIsUnique(cur, e, log[p]); }
  }

  lemma RefusedIfNotNext(tail: seq<RootEvent>, cur: RootEvent, roots: map<Digest, RootInfo>, rejected: seq<Rejection>)
    requires tail != [] && !Succeeds(cur, tail[0])
    ensures RejectsSeq(Forward(tail, cur, roots, rejected).rejected, tail[0].seqNo)
  {
    var because := rejected + [Rejection(tail[0].seqNo, WhyNot(cur, tail[0]))];
    RejectionsKept(tail[1..], cur, roots, because);
    assert Forward(tail, cur, roots, rejected).rejected[|because| - 1].seqNo == tail[0].seqNo;
  }

  /** An event is taken in exactly when it extends the end of the stored line. */
  lemma AcceptedIffExtends(log: seq<RootEvent>, e: RootEvent)
    requires Line(log) && OneEventPerKey(log + [e]) && e.seqNo >= 0 && !HasSeq(log, e.seqNo)
    ensures Accepts(log, e) <==> e.seqNo > log[|log| - 1].seqNo && Succeeds(log[|log| - 1], e)
  {
    var p := Place(log, e.seqNo);
    var roots := WalkWithOneMore(log, e, p);
    var cur := log[p - 1];
    var tail := [e] + log[p..];
    assert tail[0] == e;
    if p < |log| {
      assert log[p].seqNo != e.seqNo;
      NoSecondSuccessor(log, e, cur, p);
      assert BySeq(log[p]) <= BySeq(log[|log| - 1]);
    }
    if Succeeds(cur, e) {
      assert log[p..] == [] && tail[1..] == [];
      assert Walk(log[0].rootKey, log + [e]) == RootWalk(Admit(roots, cur, e), CurrentOf(e), Ancestry(log[0]));
    } else {
      RefusedIfNotNext(tail, cur, roots, Ancestry(log[0]));
    }
  }

  lemma ExtendedIsLine(log: seq<RootEvent>, e: RootEvent)
    requires Line(log) && e.seqNo > log[|log| - 1].seqNo && Succeeds(log[|log| - 1], e)
    ensures Line(log + [e])
  {
    assert LastOf(log[0], log[1..]) == log[|log| - 1];
    LinkedSnoc(log[0], log[1..], e);
    assert (log + [e])[1..] == log[1..] + [e];
    forall i | 0 <= i < |log| ensures BySeq(log[i]) < BySeq(e) {
      if i < |log| - 1 { assert BySeq(log[i]) < BySeq(log[|log| - 1]); }
    }
  }

  // ---------------------------------------------------------------- every run

  function EventsOf(calls: seq<Call>): seq<RootEvent> {
    if calls == [] then [] else [calls[0].event] + EventsOf(calls[1..])
  }

  lemma {:induction false} EventsOfMembers(calls: seq<Call>)
    ensures forall e :: e in EventsOf(calls) <==> exists c :: c in calls && c.event == e
  {
    if calls != [] {
      EventsOfMembers(calls[1..]);
      assert forall c :: c in calls <==> c == calls[0] || c in calls[1..];
    }
  }

  /** The root it was bootstrapped with is named by its thumbprint, and no event taken since has a negative number. */
  predicate WellNamed(log: seq<RootEvent>) {
    log != [] && KidOf(log[0].rootKey) == log[0].rootKid && forall e :: e in log ==> e.seqNo >= 0
  }

  lemma LineIsWellNamed(log: seq<RootEvent>)
    requires Line(log)
    ensures WellNamed(log)
  {
    forall i | 0 <= i < |log| ensures log[i].seqNo >= 0 {
      if i > 0 { assert BySeq(log[0]) < BySeq(log[i]); }
    }
  }

  /** Every log held starts at an establishment, is a line exactly when it is well named, and is made of events taken from `seen`. */
  ghost predicate Sound(logs: Logs, seen: seq<RootEvent>) {
    forall id :: id in logs ==> SoundLog(logs[id], seen)
  }

  ghost predicate SoundLog(log: seq<RootEvent>, seen: seq<RootEvent>) {
    log != [] && Pinnable(log[0]) && (Line(log) <==> WellNamed(log)) && forall e :: e in log ==> e in seen
  }

  lemma AcceptKeepsSound(log: seq<RootEvent>, e: RootEvent, seen: seq<RootEvent>)
    requires SoundLog(log, seen) && OneEventPerKey(seen) && e in seen && !HasSeq(log, e.seqNo) && Accepts(log, e)
    ensures SoundLog(log + [e], seen)
  {
    if Line(log + [e]) { LineIsWellNamed(log + [e]); }
    if WellNamed(log + [e]) {
      assert forall f :: f in log ==> f in log + [e];
      assert e in log + [e];
      assert OneEventPerKey(log + [e]) by { assert forall f :: f in log + [e] ==> f in seen; }
      AcceptedIffExtends(log, e);
      ExtendedIsLine(log, e);
    }
  }

  lemma PinIsSound(e: RootEvent, seen: seq<RootEvent>)
    requires Pinnable(e) && e in seen
    ensures SoundLog([e], seen)
  {
    assert [e][1..] == [];
    if Line([e]) { LineIsWellNamed([e]); }
  }

  lemma StepKeepsLogs(logs: Logs, c: Call, seen: seq<RootEvent>)
    requires Sound(logs, seen) && OneEventPerKey(seen) && c.event in seen
    ensures Sound(Apply(logs, c), seen)
  {
    var after := Apply(logs, c);
    forall id | id in after ensures SoundLog(after[id], seen) {
      if id !in logs {
        PinIsSound(c.event, seen);
      } else if after[id] != logs[id] {
        AcceptKeepsSound(logs[id], c.event, seen);
      }
    }
  }

  /**
   Over every sequence of calls, accepted and refused, each log held is one line of succession, in increasing
   sequence, from the root bootstrapped, exactly when that root is named by its thumbprint and no event in it has a
   negative number.
   */
  lemma {:induction false} EveryRunKeepsLines(logs: Logs, calls: seq<Call>, seen: seq<RootEvent>)
    requires Sound(logs, seen) && OneEventPerKey(seen)
    requires forall c :: c in calls ==> c.event in seen
    ensures Sound(RunCalls(logs, calls), seen)
    decreases |calls|
  {
    if calls != [] {
      assert calls[0] in calls && forall c :: c in calls[1..] ==> c in calls;
      StepKeepsLogs(logs, calls[0], seen);
      EveryRunKeepsLines(Apply(logs, calls[0]), calls[1..], seen);
    }
  }

  /** Whatever calls are made, with whatever events: a regulator once known stays known, its log only grows at the end, and its first root never changes. */
  lemma {:induction false} RegulatorLogsAreAppendOnly(logs: Logs, calls: seq<Call>)
    ensures forall id :: id in logs ==> id in RunCalls(logs, calls) && logs[id] <= RunCalls(logs, calls)[id]
    ensures forall id :: id in logs && logs[id] != [] ==> RunCalls(logs, calls)[id] != [] && RunCalls(logs, calls)[id][0] == logs[id][0]
    decreases |calls|
  {
    if calls != [] {
      var next := Apply(logs, calls[0]);
      assert forall id :: id in logs ==> id in next && logs[id] <= next[id];
      RegulatorLogsAreAppendOnly(next, calls[1..]);
    }
  }

  /** A well-named log walks from the root bootstrapped to its last event, with nothing rejected exactly when its establishment names no predecessor. */
  lemma RegulatorLogsWalkClean(calls: seq<Call>, id: string)
    requires OneEventPerKey(EventsOf(calls)) && id in RunCalls(map[], calls) && WellNamed(RunCalls(map[], calls)[id])
    ensures var log := RunCalls(map[], calls)[id];
      && StrictlyAscending(log, BySeq) && Linked(log[0], log[1..])
      && Walk(log[0].rootKey, log).current == CurrentOf(log[|log| - 1])
      && (Walk(log[0].rootKey, log).rejected == [] <==> Predecessor(log[0]).None?)
  {
    EventsOfMembers(calls);
    EveryRunKeepsLines(map[], calls, EventsOf(calls));
    LineWalks(RunCalls(map[], calls)[id]);
  }

  /** Two registries that bootstrapped a regulator from one event can never be led apart: one's log is a prefix of the other's. */
  lemma RegistriesNeverFork(here: seq<RootEvent>, there: seq<RootEvent>)
    requires Line(here) && Line(there) && here[0] == there[0]
    requires OneEventPerKeyAcross(here, there)
    ensures here <= there || there <= here
  {
    assert forall e :: e in here[1..] ==> e in here;
    assert forall e :: e in there[1..] ==> e in there;
    LinesAgree(here[0], here[1..], there[1..]);
    assert here == [here[0]] + here[1..] && there == [there[0]] + there[1..];
  }

  lemma {:induction false} LinesAgree(cur: RootEvent, a: seq<RootEvent>, b: seq<RootEvent>)
    requires Linked(cur, a) && Linked(cur, b) && OneEventPerKeyAcross(a, b)
    ensures a <= b || b <= a
    decreases |a|
  {
    if a != [] && b != [] {
      assert a[0] in a && b[0] in b;
      assert a[0] == b[0];
      assert forall e :: e in a[1..] ==> e in a;
      assert forall e :: e in b[1..] ==> e in b;
      LinesAgree(a[0], a[1..], b[1..]);
    }
  }

  /** `pinRegulator` does not look at the predecessor an establishment names, so one that names any leaves every later walk with a complaint. */
  lemma EstablishmentMayNameAPredecessor()
    ensures exists e: RootEvent ::
      && Pinnable(e) && PinResult(map[], "r", e) == Ok(map["r" := [e]])
      && Walk(e.rootKey, [e]).rejected == [Rejection(-1, BROKEN_PREDECESSOR)]
  {
    var e := RootEvent(0, Sha("k"), Jwk("k", None), Some(Text("p")), Text("n"), ESTABLISHMENT, None, Some("k"));
    assert SortBy([e], BySeq) == [e] by { assert [e][1..] == []; }
    NoParentBelow([e], Text("p"), -1);
    assert Pinnable(e) && Walk(e.rootKey, [e]).rejected == [Rejection(-1, BROKEN_PREDECESSOR)] by {
      assert [e][1..] == [];
      assert Above([e], 0) == [];
    }
  }

  /**
   Nor does it look at the name the establishment's key gives itself. If that is not the key's thumbprint, no walk
   finds its start, and what is taken in is exactly whatever carries that name, signed or not.
   */
  lemma MisnamedLogAcceptsExactly(log: seq<RootEvent>, f: RootEvent)
    requires log != [] && Pinnable(log[0]) && KidOf(log[0].rootKey) != log[0].rootKid
    ensures Accepts(log, f) <==> f.rootKid == KidOf(log[0].rootKey)
  {
    var g, pinned := log + [f], log[0].rootKey;
    FindStartIsMember(SortBy(g, BySeq), pinned);
    assert FindStart(SortBy(g, BySeq), pinned).None?;
    assert Walk(pinned, g) == Alone(pinned);
  }

  lemma PairAscends(e: RootEvent, f: RootEvent)
    requires e.seqNo < f.seqNo
    ensures StrictlyAscending([e, f], BySeq) && [e] + [f] == [e, f]
  {
  }

  /** On a bootstrapped root named by its thumbprint, a later event is taken in exactly when it succeeds that root. */
  lemma NamedRootAcceptsOnlySuccessors(e: RootEvent, f: RootEvent)
    requires Pinnable(e) && KidOf(e.rootKey) == e.rootKid && f.seqNo > e.seqNo
    ensures Accepts([e], f) <==> Succeeds(e, f)
  {
    PairAscends(e, f);
    WalkOfAscending([e, f], [e] + [f]);
    var seed := map[e.rootKid := RootInfo(e.rootKey, e.seqNo, None)];
    assert [e, f][1..] == [f] && [f][1..] == [];
    if !Succeeds(e, f) { RefusedIfNotNext([f], e, seed, Ancestry(e)); }
  }

  predicate Unsigned(f: RootEvent) { f.signedBy.None? }

  predicate TakesLater(e: RootEvent, f: RootEvent) { f.seqNo > e.seqNo && Accepts([e], f) }

  /** The pinned root keeps unsigned events out exactly when its key names itself by its thumbprint. */
  lemma ForgersKeptOutExactlyWhenNamed(e: RootEvent)
    requires Pinnable(e)
    ensures KidOf(e.rootKey) == e.rootKid <==> forall f :: Unsigned(f) ==> !TakesLater(e, f)
  {
    if KidOf(e.rootKey) == e.rootKid {
      forall f | Unsigned(f) ensures !TakesLater(e, f) {
        if f.seqNo > e.seqNo { NamedRootAcceptsOnlySuccessors(e, f); }
      }
    } else {
      var forged := RootEvent(1, KidOf(e.rootKey), Jwk("", None), None, Text(""), ROTATION, None, None);
      MisnamedLogAcceptsExactly([e], forged);
      assert Unsigned(forged) && TakesLater(e, forged);
    }
  }

  /**
   Numbers below the establishment's escape the walk: an event nobody signed is then taken in exactly when it repeats
   the root's name and does not stand in the place of a predecessor the establishment names.
   */
  lemma NegativeNumbersAreTakenExactlyWhen(e: RootEvent, f: RootEvent)
    requires Pinnable(e) && KidOf(e.rootKey) == e.rootKid && f.seqNo < 0 && !SelfSigned(f)
    ensures Accepts([e], f) <==> f.rootKid == e.rootKid && !(f.seqNo == -1 && Predecessor(e).Some?)
  {
    BelowIsPassedOver(e, f);
    var seed := map[e.rootKid := RootInfo(e.rootKey, e.seqNo, None)];
    assert Walk(e.rootKey, [e] + [f]) == RootWalk(seed, CurrentOf(e), Ancestry(e));
    if Predecessor(e).Some? { assert Ancestry(e)[0].seqNo == -1; }
  }

  lemma SortedPair(e: RootEvent, f: RootEvent)
    requires f.seqNo < e.seqNo
    ensures SortBy([e] + [f], BySeq) == [f, e]
  {
    PairAscends(f, e);
    SortByOfPermutation([f, e], [e] + [f], BySeq);
  }

  lemma BelowIsPassedOver(e: RootEvent, f: RootEvent)
    requires Pinnable(e) && KidOf(e.rootKey) == e.rootKid && f.seqNo < 0 && !SelfSigned(f)
    ensures Walk(e.rootKey, [e] + [f]) == RootWalk(map[e.rootKid := RootInfo(e.rootKey, e.seqNo, None)], CurrentOf(e), Ancestry(e))
  {
    SortedPair(e, f);
    assert [f, e][1..] == [e] && [e][1..] == [];
    assert FindStart([f, e], e.rootKey) == Some(e);
    assert Above([f, e], 0) == Above([e], 0) == Above([], 0) == [];
    NoSignedParent(e, f);
  }

  lemma NoSignedParent(e: RootEvent, f: RootEvent)
    requires e.seqNo == 0 && !SelfSigned(f)
    ensures forall roots :: Backward([f, e], e, roots) == (roots, Ancestry(e))
  {
    if Predecessor(e).Some? {
      var k := Predecessor(e).value;
      assert [f, e][1..] == [e] && FindParent([e], k, -1) == FindParent([e][1..], k, -1) == None;
      assert FindParent([f, e], k, -1).None? || FindParent([f, e], k, -1) == Some(f);
    }
  }
}
