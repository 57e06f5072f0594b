/** What signatures, proposals and overrides bring about. */
module GovernanceSigning {
  // The invariant says what never happens; here is what does: enough signatures execute a
  // proposal, fewer only collect, and each refusal has its reason.

  import opened Wrappers
  import Reals
  import opened GovernanceModel
  import opened GovernanceProofs

  // ----- what validation makes of a target -----

  /** c is the value between 0 and 1 nearest to x. */
  predicate NearestInUnit(c: real, x: real) {
    0.0 <= c <= 1.0 && (x < c ==> c == 0.0) && (x > c ==> c == 1.0)
  }

  ghost predicate ClippedTo(target: Targets, c: seq<real>) {
    && |c| == |target|
    && forall i :: 0 <= i < |c| ==> target[i].1.Number? && NearestInUnit(c[i], target[i].1.value)
  }

  /** The values are the clipped ones as they are if there is at most one or their total is
      within a tenth of one, and otherwise in proportion to the total. */
  ghost predicate InProportion(c: seq<real>, total: real, values: Values) {
    && |values| == |c|
    && if |c| <= 1 || 0.9 <= total <= 1.1 then forall i :: 0 <= i < |c| ==> values[i].1 == c[i]
       else total != 0.0 && forall i :: 0 <= i < |c| ==> values[i].1 * total == c[i]
  }

  ghost predicate SameKeys(target: Targets, values: Values) {
    |values| == |target| && forall i :: 0 <= i < |target| ==> values[i].0 == target[i].0
  }

  ghost predicate Normalises(target: Targets, c: seq<real>, values: Values) {
    ClippedTo(target, c) && SameKeys(target, values) && InProportion(c, Reals.Sum(c), values)
  }

  ghost predicate MeansValues(target: Targets, values: Values) {
    exists c :: Normalises(target, c, values)
  }

  function Column(v: Values): (c: seq<real>)
    ensures |c| == |v| && forall i :: 0 <= i < |c| ==> c[i] == v[i].1
  {
    seq(|v|, i requires 0 <= i < |v| => v[i].1)
  }

  lemma {:induction false} TotalIsSum(v: Values, c: seq<real>)
    requires c == Column(v)
    ensures Reals.Sum(c) == Sum(v)
  {
    if v != [] { TotalIsSum(v[..|v| - 1], c[..|c| - 1]); }
  }

  lemma ClippedIsClamped(target: Targets, c: seq<real>)
    requires ClippedTo(target, c)
    ensures AllNumbers(target) && c == Column(Clamped(target))
  {
  }

  lemma QuotientIff(a: real, d: real, q: real)
    requires d != 0.0
    ensures a / d == q <==> q * d == a
  {
    if q * d == a { assert a / d == q; }
  }

  lemma ScaledIff(v: Values, total: real, w: Values)
    requires total != 0.0 && |w| == |v| && forall i :: 0 <= i < |v| ==> w[i].0 == v[i].0
    ensures w == Scaled(v, total) <==> forall i :: 0 <= i < |v| ==> w[i].1 * total == v[i].1
  {
    forall i | 0 <= i < |v| ensures w[i] == Scaled(v, total)[i] <==> w[i].1 * total == v[i].1 {
      QuotientIff(v[i].1, total, w[i].1);
    }
  }

  lemma InProportionIff(v: Values, c: seq<real>, total: real, values: Values)
    requires c == Column(v) && |values| == |v| && forall i :: 0 <= i < |v| ==> values[i].0 == v[i].0
    ensures InProportion(c, total, values) <==>
            if OffBalance(total) && |v| > 1 then total != 0.0 && values == Scaled(v, total) else values == v
  {
    if OffBalance(total) && |v| > 1 {
      if total != 0.0 { ScaledIff(v, total, values); }
    } else if InProportion(c, total, values) {
      assert forall i :: 0 <= i < |v| ==> values[i] == v[i];
    }
  }

  lemma AcceptedNormalises(target: Targets, values: Values)
    requires Validate(target) == Accepted(values)
    ensures MeansValues(target, values)
  {
    var v := Clamped(target);
    var c := Column(v);
    TotalIsSum(v, c);
    InProportionIff(v, c, Sum(v), values);
    assert Normalises(target, c, values);
  }

  lemma NormalisesAccepted(target: Targets, c: seq<real>, values: Values)
    requires Normalises(target, c, values)
    ensures Validate(target) == Accepted(values)
  {
    ClippedIsClamped(target, c);
    var v := Clamped(target);
    TotalIsSum(v, c);
    InProportionIff(v, c, Sum(v), values);
  }

  /** A target is accepted, as certain values, exactly if these are what it means. */
  lemma AcceptedIff(target: Targets, values: Values)
    ensures Validate(target) == Accepted(values) <==> MeansValues(target, values)
  {
    if Validate(target) == Accepted(values) { AcceptedNormalises(target, values); }
    if MeansValues(target, values) {
      var c :| Normalises(target, c, values);
      NormalisesAccepted(target, c, values);
    }
  }

  // ----- how many updates are younger than a day -----

  function Young(stamps: seq<real>, now: real): nat {
    if stamps == [] then 0
    else Young(stamps[..|stamps| - 1], now) + if now - stamps[|stamps| - 1] < 86400.0 then 1 else 0
  }

  lemma {:induction false} YoungFrom(stamps: seq<real>, now: real, k: nat)
    requires k <= |stamps|
    requires forall i :: 0 <= i < k ==> now - stamps[i] >= 86400.0
    requires forall i :: k <= i < |stamps| ==> now - stamps[i] < 86400.0
    ensures Young(stamps, now) == |stamps| - k
  {
    if |stamps| > k {
      YoungFrom(stamps[..|stamps| - 1], now, k);
    } else if stamps != [] {
      YoungFrom(stamps[..|stamps| - 1], now, k - 1);
    }
  }

  lemma PrunedAreYoung(g: Gov, now: real)
    requires Inv(g) && g.clock <= now
    ensures |Prune(g.recent, now)| == Young(g.stamps, now)
  {
    var k := RecentAfterCheck(g.stamps, g.recent, g.clock, now);
    YoungFrom(g.stamps, now, k);
  }

  // ----- one signature -----

  /** The signatures of a proposal once this signer has signed as well. */
  function Signatures(p: Proposal, signer: string): seq<string> {
    if signer in p.signatures then p.signatures else p.signatures + [signer]
  }

  /** A signature that counts, on a proposal that waits for it. */
  ghost predicate Signs(g: Gov, id: string, signer: string, r: Reads) {
    Inv(g) && Ordered(g.clock, r) && signer in g.signers && id in g.pending
  }

  /** The proposal, with all its signatures, is now the last of these. */
  predicate MovedTo(g: Gov, id: string, signer: string, before: seq<Proposal>, after: seq<Proposal>)
    requires id in g.pending
  {
    && |after| == |before| + 1 && after[..|before|] == before
    && after[|before|] == g.pending[id].(signatures := Signatures(g.pending[id], signer))
  }

  /** With enough signatures, fewer than three updates in the last day and a meaningful target,
      the proposal is approved: it leaves the pending ones, and its values are in force. */
  lemma EnoughSignaturesExecute(g: Gov, id: string, signer: string, r: Reads, values: Values)
    requires Signs(g, id, signer, r)
    requires |Signatures(g.pending[id], signer)| >= g.required
    requires Young(g.stamps, r.check) < 3 && MeansValues(g.pending[id].target, values)
    ensures var g' := Step(g, OpSign(id, signer, r));
            && MovedTo(g, id, signer, g.approved, g'.approved) && g'.pending == g.pending - {id}
            && g'.values == values && g'.version == g.version + 1 && g'.lastUpdated == r.state
            && g'.rejected == g.rejected && g'.signers == g.signers && g'.stamps == g.stamps + [r.stamp]
    ensures Sign(g, id, signer, r).1 == Returned(true)
  {
    PrunedAreYoung(g, r.check);
    AcceptedIff(g.pending[id].target, values);
    PendingWithout(g, id, g.pending[id].(signatures := Signatures(g.pending[id], signer)));
  }

  lemma PendingWithout(g: Gov, id: string, p: Proposal)
    ensures g.pending[id := p] - {id} == g.pending - {id}
  {
  }

  /** With enough signatures, but three updates in the last day or a value that is no number,
      the proposal is rejected, and nothing else happens to the values. */
  lemma EnoughSignaturesReject(g: Gov, id: string, signer: string, r: Reads)
    requires Signs(g, id, signer, r)
    requires |Signatures(g.pending[id], signer)| >= g.required
    requires Young(g.stamps, r.check) >= 3
             || exists i :: 0 <= i < |g.pending[id].target| && g.pending[id].target[i].1.NotANumber?
    ensures var g' := Step(g, OpSign(id, signer, r));
            && MovedTo(g, id, signer, g.rejected, g'.rejected) && g'.pending == g.pending - {id}
            && g'.values == g.values && g'.version == g.version && g'.lastUpdated == g.lastUpdated
            && g'.approved == g.approved && g'.signers == g.signers && g'.stamps == g.stamps
    ensures Sign(g, id, signer, r).1 == Returned(true)
  {
    PrunedAreYoung(g, r.check);
    PendingWithout(g, id, g.pending[id].(signatures := Signatures(g.pending[id], signer)));
  }

  /** Several numbers, none of them positive. */
  predicate NothingToScale(target: Targets) {
    |target| > 1 && forall i :: 0 <= i < |target| ==> target[i].1.Number? && target[i].1.value <= 0.0
  }

  /** With enough signatures but nothing to scale the execution raises, and leaves the proposal
      pending with its signatures. */
  lemma EnoughSignaturesRaise(g: Gov, id: string, signer: string, r: Reads)
    requires Signs(g, id, signer, r)
    requires |Signatures(g.pending[id], signer)| >= g.required
    requires Young(g.stamps, r.check) < 3 && NothingToScale(g.pending[id].target)
    ensures var g' := Step(g, OpSign(id, signer, r));
            && g'.pending == g.pending[id := g.pending[id].(signatures := Signatures(g.pending[id], signer))]
            && g'.values == g.values && g'.version == g.version && g'.lastUpdated == g.lastUpdated
            && g'.approved == g.approved && g'.rejected == g.rejected && g'.stamps == g.stamps
    ensures Sign(g, id, signer, r).1 == ZeroDivision
  {
    PrunedAreYoung(g, r.check);
    DividesByZeroIff(g.pending[id].target);
  }

  /** Fewer signatures than required only collect. */
  lemma TooFewCollect(g: Gov, id: string, signer: string, r: Reads)
    requires Signs(g, id, signer, r)
    requires |Signatures(g.pending[id], signer)| < g.required
    ensures Step(g, OpSign(id, signer, r)) ==
            g.(pending := g.pending[id := g.pending[id].(signatures := Signatures(g.pending[id], signer))])
    ensures Sign(g, id, signer, r).1 == Returned(true)
  {
  }

  /** The signature of a stranger, or on a proposal that is not pending, is refused and changes
      nothing. */
  lemma StrangersAreRefused(g: Gov, id: string, signer: string, r: Reads)
    requires signer !in g.signers || id !in g.pending
    ensures Step(g, OpSign(id, signer, r)) == g && Sign(g, id, signer, r).1 == Returned(false)
  {
  }

  /** A registered signer may sign from then on, and nobody else. */
  lemma RegisteredMaySign(g: Gov, signer: string, other: string)
    ensures var g' := Step(g, OpRegister(signer));
            (other in g'.signers <==> other == signer || other in g.signers) && g' == g.(signers := g'.signers)
  {
  }

  /** A proposal waits under its id, unsigned, with the target as proposed, unless a value that
      is no number stands under a key that has a value already: then nothing is stored. */
  lemma ProposedWaits(g: Gov, id: string, proposer: string, target: Targets, now: real)
    ensures var g' := Step(g, OpPropose(id, proposer, target, now));
            var raises := exists i, j :: 0 <= i < |target| && 0 <= j < |g.values|
                                         && target[i].0 == g.values[j].0 && target[i].1.NotANumber?;
            && (Propose(g, id, proposer, target, now).1 <==> raises)
            && g'.pending == (if raises then g.pending else g.pending[id := Proposal(id, proposer, target, [])])
            && g'.values == g.values && g'.version == g.version && g'.signers == g.signers
            && g'.approved == g.approved && g'.rejected == g.rejected
  {
    if !Assessable(g.values, target) {
      var i :| 0 <= i < |target| && IsKey(g.values, target[i].0) && !target[i].1.Number?;
      var j :| 0 <= j < |g.values| && g.values[j].0 == target[i].0;
      assert target[i].0 == g.values[j].0 && target[i].1.NotANumber?;
    }
  }

  /** An override with an accepted code puts its values in force at once, whatever is pending;
      with any other code it changes nothing. */
  lemma OverrideInForce(g: Gov, values: Values, codeAccepted: bool, now: real)
    ensures var g' := Step(g, OpOverride(values, codeAccepted, now));
            && EmergencyOverride(g, values, codeAccepted, now).1 == codeAccepted
            && (!codeAccepted ==> g' == g)
            && (codeAccepted ==> g'.values == values && g'.version == g.version + 1 && g'.lastUpdated == now)
            && g'.pending == g.pending && g'.approved == g.approved && g'.rejected == g.rejected
            && g'.signers == g.signers && g'.recent == g.recent
  {
  }

  // ----- what waits has too few signatures -----

  ghost predicate Waiting(g: Gov) {
    g.required > 0 ==>
      forall id :: id in g.pending ==> |g.pending[id].signatures| < g.required || NothingToScale(g.pending[id].target)
  }

  lemma StepWaiting(g: Gov, op: Op)
    requires Inv(g) && Waiting(g) && Plausible(g, op)
    ensures Waiting(Step(g, op)) && Step(g, op).required == g.required
  {
    if op.OpSign? && op.signer in g.signers && op.id in g.pending {
      SignWaiting(g, op.id, op.signer, op.clock);
    }
  }

  lemma SignWaiting(g: Gov, id: string, signer: string, r: Reads)
    requires Signs(g, id, signer, r) && Waiting(g)
    ensures Waiting(Step(g, OpSign(id, signer, r)))
  {
    var target := g.pending[id].target;
    if |Signatures(g.pending[id], signer)| < g.required {
      TooFewCollect(g, id, signer, r);
    } else if Young(g.stamps, r.check) >= 3 {
      EnoughSignaturesReject(g, id, signer, r);
    } else {
      match Validate(target)
      case Rejected =>
        var i :| 0 <= i < |target| && !target[i].1.Number?;
        assert target[i].1.NotANumber?;
        EnoughSignaturesReject(g, id, signer, r);
      case Accepted(values) =>
        AcceptedIff(target, values);
        EnoughSignaturesExecute(g, id, signer, r, values);
      case DividesByZero =>
        DividesByZeroIff(target);
        EnoughSignaturesRaise(g, id, signer, r);
    }
  }

  lemma {:induction false} RunWaits(g: Gov, ops: seq<Op>)
    requires Inv(g) && Waiting(g) && Run(g, ops).Some?
    ensures Waiting(Run(g, ops).value)
    decreases |ops|
  {
    if ops != [] {
      StepInv(g, ops[0]);
      StepWaiting(g, ops[0]);
      RunWaits(Step(g, ops[0]), ops[1..]);
    }
  }

  /** In every run with a positive number of required signatures, a proposal that still waits
      has fewer, unless its target cannot be scaled. */
  lemma PendingHasTooFew(values: Values, required: int, now: real, ops: seq<Op>)
    requires required > 0 && Run(Initial(values, required, now), ops).Some?
    ensures Waiting(Run(Initial(values, required, now), ops).value)
  {
    InitialInv(values, required, now);
    RunWaits(Initial(values, required, now), ops);
  }

  // ----- a proposal from beginning to end -----

  function SignOps(id: string, signers: seq<string>, clocks: seq<Reads>): seq<Op>
    requires |signers| == |clocks|
  {
    if signers == [] then [] else [OpSign(id, signers[0], clocks[0])] + SignOps(id, signers[1..], clocks[1..])
  }

  /** These signers have still to sign the proposal, and are just enough. */
  ghost predicate StillToSign(g: Gov, id: string, signers: seq<string>, clocks: seq<Reads>) {
    && Inv(g) && id in g.pending && |signers| == |clocks| > 0
    && |g.pending[id].signatures| + |signers| == g.required
    && GovernanceProofs.Distinct(signers)
    && (forall i :: 0 <= i < |signers| ==> signers[i] in g.signers && signers[i] !in g.pending[id].signatures)
    && (forall i :: 0 <= i < |clocks| ==> Ordered(g.clock, clocks[i]))
  }

  lemma FirstSigns(g: Gov, id: string, signers: seq<string>, clocks: seq<Reads>)
    requires StillToSign(g, id, signers, clocks) && |signers| > 1
    ensures var g' := Step(g, OpSign(id, signers[0], clocks[0]));
            && StillToSign(g', id, signers[1..], clocks[1..]) && g'.stamps == g.stamps
            && g'.pending[id].target == g.pending[id].target && g'.version == g.version
            && g'.approved == g.approved && g'.pending - {id} == g.pending - {id}
  {
    var p := g.pending[id].(signatures := Signatures(g.pending[id], signers[0]));
    TooFewCollect(g, id, signers[0], clocks[0]);
    StepInv(g, OpSign(id, signers[0], clocks[0]));
    PendingWithout(g, id, p);
    assert forall i :: 0 <= i < |signers[1..]| ==> signers[1..][i] == signers[i + 1] && clocks[1..][i] == clocks[i + 1];
    forall i | 0 <= i < |signers[1..]| ensures signers[1..][i] !in p.signatures {
      assert signers[0] != signers[i + 1];
    }
  }

  /** When the required number of authorised signers sign one after the other, the proposal
      is executed with the last signature, if the limit and the target then allow it. */
  lemma {:induction false} SignersCarry(g: Gov, id: string, signers: seq<string>, clocks: seq<Reads>, values: Values)
    requires StillToSign(g, id, signers, clocks) && MeansValues(g.pending[id].target, values)
    requires Young(g.stamps, clocks[|clocks| - 1].check) < 3
    ensures var end := Run(g, SignOps(id, signers, clocks));
            && end.Some? && end.value.values == values && end.value.version == g.version + 1
            && end.value.pending == g.pending - {id} && |end.value.approved| == |g.approved| + 1
            && end.value.approved[|g.approved|].id == id
    decreases |signers|
  {
    var first := OpSign(id, signers[0], clocks[0]);
    var g' := Step(g, first);
    assert SignOps(id, signers, clocks)[1..] == SignOps(id, signers[1..], clocks[1..]);
    if |signers| > 1 {
      FirstSigns(g, id, signers, clocks);
      SignersCarry(g', id, signers[1..], clocks[1..], values);
    } else {
      EnoughSignaturesExecute(g, id, signers[0], clocks[0], values);
      assert Run(g', []) == Some(g');
    }
  }
}
