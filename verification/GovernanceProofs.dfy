/** What the governance protocol guarantees over every run with a clock that does not go
    back and proposal ids that do not repeat. */
module GovernanceProofs {
  import opened Wrappers
  import Reals
  import opened GovernanceModel

  // ----- validated values -----

  lemma {:induction false} SumNonNegative(v: Values)
    requires forall i :: 0 <= i < |v| ==> v[i].1 >= 0.0
    ensures Sum(v) >= 0.0
    ensures forall i :: 0 <= i < |v| ==> v[i].1 <= Sum(v)
    ensures Sum(v) == 0.0 <==> forall i :: 0 <= i < |v| ==> v[i].1 == 0.0
  {
    if v != [] {
      var init := v[..|v| - 1];
      SumNonNegative(init);
      forall i | 0 <= i < |v| ensures v[i].1 <= Sum(v) && (Sum(v) == 0.0 ==> v[i].1 == 0.0) {
        if i < |v| - 1 { assert init[i] == v[i]; }
      }
    }
  }

  lemma Share(x: real, total: real)
    requires 0.0 <= x <= total && total > 0.0
    ensures 0.0 <= x / total <= 1.0
  {
  }

  lemma {:induction false} SumScaled(v: Values, total: real)
    requires total > 0.0
    ensures Sum(Scaled(v, total)) == Sum(v) / total
  {
    if v != [] {
      var init := v[..|v| - 1];
      SumScaled(init, total);
      assert Scaled(v, total)[..|v| - 1] == Scaled(init, total);
      QuotientSum(Sum(init), v[|v| - 1].1, total);
    }
  }

  lemma QuotientSum(a: real, b: real, d: real)
    requires d > 0.0
    ensures a / d + b / d == (a + b) / d
  {
  }

  /** Accepted values keep the proposed keys in order, lie between 0 and 1, and when there
      are several of them sum to within a tenth of 1. */
  lemma AcceptedValues(target: Targets)
    requires Validate(target).Accepted?
    ensures var v := Validate(target).values;
            && |v| == |target| && (forall i :: 0 <= i < |v| ==> v[i].0 == target[i].0)
            && (forall i :: 0 <= i < |v| ==> 0.0 <= v[i].1 <= 1.0)
            && (|v| > 1 ==> !OffBalance(Sum(v)))
  {
    var v := Clamped(target);
    SumNonNegative(v);
    if Sum(v) > 0.0 { ScaledValues(v); }
  }

  lemma ScaledValues(v: Values)
    requires Sum(v) > 0.0 && forall i :: 0 <= i < |v| ==> v[i].1 >= 0.0
    ensures Sum(Scaled(v, Sum(v))) == 1.0
    ensures forall i :: 0 <= i < |v| ==> 0.0 <= Scaled(v, Sum(v))[i].1 <= 1.0
  {
    SumNonNegative(v);
    SumScaled(v, Sum(v));
    Reals.QuotientSelf(Sum(v));
    SharesOf(v, Sum(v));
  }

  lemma SharesOf(v: Values, total: real)
    requires total > 0.0 && forall i :: 0 <= i < |v| ==> 0.0 <= v[i].1 <= total
    ensures forall i :: 0 <= i < |v| ==> 0.0 <= Scaled(v, total)[i].1 <= 1.0
  {
    forall i | 0 <= i < |v| ensures 0.0 <= Scaled(v, total)[i].1 <= 1.0 {
      Share(v[i].1, total);
    }
  }

  /** Validation divides by zero exactly on several numbers none of which is positive. */
  lemma DividesByZeroIff(target: Targets)
    ensures Validate(target).DividesByZero? <==>
            AllNumbers(target) && |target| > 1 && forall i :: 0 <= i < |target| ==> target[i].1.value <= 0.0
  {
    if AllNumbers(target) {
      var v := Clamped(target);
      SumNonNegative(v);
      if forall i :: 0 <= i < |target| ==> target[i].1.value <= 0.0 {
        forall i | 0 <= i < |v| ensures v[i].1 == 0.0 {
          assert target[i].1.value <= 0.0;
        }
      }
      if Sum(v) == 0.0 {
        forall i | 0 <= i < |target| ensures target[i].1.value <= 0.0 {
          assert v[i].1 == 0.0;
        }
      }
    }
  }

  // ----- the invariant -----

  predicate Distinct(s: seq<string>) {
    forall i, j :: 0 <= i < j < |s| ==> s[i] != s[j]
  }

  predicate SignaturesOk(p: Proposal, signers: set<string>) {
    Distinct(p.signatures) && forall i :: 0 <= i < |p.signatures| ==> p.signatures[i] in signers
  }

  predicate AllSigned(ps: seq<Proposal>, signers: set<string>) {
    forall i :: 0 <= i < |ps| ==> SignaturesOk(ps[i], signers)
  }

  predicate SignedOk(g: Gov) {
    && AllSigned(g.approved, g.signers) && AllSigned(g.rejected, g.signers)
    && (forall id :: id in g.pending ==> SignaturesOk(g.pending[id], g.signers))
    && (forall i :: 0 <= i < |g.approved| ==> |g.approved[i].signatures| >= g.required)
  }

  function CountId(ps: seq<Proposal>, id: string): nat {
    if ps == [] then 0 else CountId(ps[..|ps| - 1], id) + if ps[|ps| - 1].id == id then 1 else 0
  }

  /** In how many of the three places the proposal is. */
  function Places(g: Gov, id: string): nat {
    (if id in g.pending then 1 else 0) + CountId(g.approved, id) + CountId(g.rejected, id)
  }

  /** Each proposal ever made is in exactly one place, once. */
  ghost predicate PlacesOk(g: Gov) {
    && (forall id :: id in g.pending ==> g.pending[id].id == id)
    && (forall id :: Places(g, id) == if id in g.proposed then 1 else 0)
  }

  predicate SortedStamps(s: seq<real>) {
    forall i, j :: 0 <= i < j < |s| ==> s[i] <= s[j]
  }

  /** The recent list is the stamps from position k on, and those before it are a day old. */
  predicate RecentFrom(stamps: seq<real>, recent: seq<real>, clock: real, k: nat) {
    k <= |stamps| && recent == stamps[k..] && forall i :: 0 <= i < k ==> clock - stamps[i] >= DAY
  }

  ghost predicate RateOk(stamps: seq<real>, recent: seq<real>, clock: real) {
    && SortedStamps(stamps)
    && (forall i :: 0 <= i < |stamps| ==> stamps[i] <= clock)
    && (exists k: nat :: RecentFrom(stamps, recent, clock, k))
    && (forall i :: 0 <= i < |stamps| - MAX_PER_DAY ==> stamps[i + MAX_PER_DAY] - stamps[i] >= DAY)
  }

  ghost predicate StampsOk(g: Gov) {
    |g.stamps| == |g.approved| && RateOk(g.stamps, g.recent, g.clock)
  }

  predicate VersionOk(g: Gov) {
    g.version == 1 + |g.approved| + g.overrides
  }

  ghost predicate Inv(g: Gov) {
    SignedOk(g) && PlacesOk(g) && StampsOk(g) && VersionOk(g)
  }

  lemma InitialInv(values: Values, required: int, now: real)
    ensures Inv(Initial(values, required, now))
  {
    assert RecentFrom([], [], now, 0);
  }

  // ----- pruning -----

  /** Pruning an ordered list drops a prefix: what it keeps is younger than a day, what it
      drops is not. */
  lemma {:induction false} PruneSuffix(s: seq<real>, c: real) returns (k: nat)
    requires SortedStamps(s)
    ensures k <= |s| && Prune(s, c) == s[k..]
    ensures forall i :: 0 <= i < k ==> c - s[i] >= DAY
    ensures forall i :: k <= i < |s| ==> c - s[i] < DAY
  {
    var n := |s| - 1;
    if s == [] || c - s[n] >= DAY {
      PruneAllOld(s, c);
      k := |s|;
    } else {
      var init := s[..n];
      k := PruneSuffix(init, c);
      SuffixExtends(s, init, k);
    }
  }

  lemma SuffixExtends(s: seq<real>, init: seq<real>, k: nat)
    requires s != [] && init == s[..|s| - 1] && k <= |init|
    ensures s[k..] == init[k..] + [s[|s| - 1]]
  {
  }

  lemma {:induction false} PruneAllOld(s: seq<real>, c: real)
    requires forall i :: 0 <= i < |s| ==> c - s[i] >= DAY
    ensures Prune(s, c) == []
  {
    if s != [] { PruneAllOld(s[..|s| - 1], c); }
  }

  lemma DropDrop(s: seq<real>, i: nat, j: nat)
    requires i + j <= |s|
    ensures s[i..][j..] == s[i + j..]
  {
  }

  // The prefix dropped so far, after a check at time c.
  lemma RecentAfterCheck(stamps: seq<real>, recent: seq<real>, clock: real, c: real) returns (k: nat)
    requires RateOk(stamps, recent, clock) && clock <= c
    ensures RecentFrom(stamps, Prune(recent, c), c, k)
    ensures forall i :: k <= i < |stamps| ==> c - stamps[i] < DAY
  {
    var k0: nat :| RecentFrom(stamps, recent, clock, k0);
    var j := PruneSuffix(recent, c);
    k := k0 + j;
    DropDrop(stamps, k0, j);
    forall i | 0 <= i < k ensures c - stamps[i] >= DAY {
      if i >= k0 { assert recent[i - k0] == stamps[i]; }
    }
    forall i | k <= i < |stamps| ensures c - stamps[i] < DAY {
      assert recent[i - k0] == stamps[i];
    }
  }

  /** The clock moving on, with or without a prune, leaves the stamps as good as they were. */
  lemma ClockAdvances(stamps: seq<real>, recent: seq<real>, clock: real, c: real)
    requires RateOk(stamps, recent, clock) && clock <= c
    ensures RateOk(stamps, recent, c) && RateOk(stamps, Prune(recent, c), c)
  {
    var k := RecentAfterCheck(stamps, recent, clock, c);
    var k0: nat :| RecentFrom(stamps, recent, clock, k0);
    assert RecentFrom(stamps, recent, c, k0);
  }

  /** An update passes the check only when the fourth-last one is a day old. */
  lemma ApproveStamps(stamps: seq<real>, recent: seq<real>, clock: real, c: real, stamp: real)
    requires RateOk(stamps, recent, clock) && clock <= c <= stamp && |Prune(recent, c)| < MAX_PER_DAY
    ensures RateOk(stamps + [stamp], Prune(recent, c) + [stamp], stamp)
  {
    var k := RecentAfterCheck(stamps, recent, clock, c);
    RecentAppended(stamps, Prune(recent, c), c, k, stamp);
    SpacingAppended(stamps, c, k, stamp);
    assert forall i :: 0 <= i < |stamps| ==> stamps[i] <= stamp;
  }

  lemma RecentAppended(stamps: seq<real>, recent: seq<real>, c: real, k: nat, stamp: real)
    requires RecentFrom(stamps, recent, c, k) && c <= stamp
    ensures RecentFrom(stamps + [stamp], recent + [stamp], stamp, k)
  {
    assert (stamps + [stamp])[k..] == stamps[k..] + [stamp];
  }

  lemma SpacingAppended(stamps: seq<real>, c: real, k: nat, stamp: real)
    requires |stamps| - MAX_PER_DAY < k <= |stamps| && c <= stamp && forall i :: 0 <= i < k ==> c - stamps[i] >= DAY
    requires forall i :: 0 <= i < |stamps| - MAX_PER_DAY ==> stamps[i + MAX_PER_DAY] - stamps[i] >= DAY
    ensures forall i :: 0 <= i < |stamps| + 1 - MAX_PER_DAY ==>
              (stamps + [stamp])[i + MAX_PER_DAY] - (stamps + [stamp])[i] >= DAY
  {
  }

  // ----- steps -----

  lemma {:induction false} CountIdAppend(ps: seq<Proposal>, p: Proposal, id: string)
    ensures CountId(ps + [p], id) == CountId(ps, id) + if p.id == id then 1 else 0
  {
    assert (ps + [p])[..|ps|] == ps;
  }

  lemma SignedProposal(p: Proposal, signer: string, signers: set<string>)
    requires SignaturesOk(p, signers) && signer in signers
    ensures SignaturesOk(WithSignature(p, signer), signers)
    ensures signer in WithSignature(p, signer).signatures && WithSignature(p, signer).id == p.id
  {
  }

  lemma PlacesAfterMove(g: Gov, g': Gov, p: Proposal)
    requires PlacesOk(g) && p.id in g.pending && g'.pending == g.pending - {p.id} && g'.proposed == g.proposed
    requires (g'.approved == g.approved + [p] && g'.rejected == g.rejected) ||
             (g'.approved == g.approved && g'.rejected == g.rejected + [p])
    ensures PlacesOk(g')
  {
    forall id ensures Places(g', id) == if id in g'.proposed then 1 else 0 {
      assert Places(g, id) == if id in g.proposed then 1 else 0;
      CountIdAppend(g.approved, p, id);
      CountIdAppend(g.rejected, p, id);
    }
  }

  lemma RejectInv(g: Gov, p: Proposal, c: real)
    requires Inv(g) && p.id in g.pending && g.pending[p.id] == p && g.clock <= c
    ensures Inv(Rejecting(g, p, Prune(g.recent, c), c))
  {
    var g' := Rejecting(g, p, Prune(g.recent, c), c);
    ClockAdvances(g.stamps, g.recent, g.clock, c);
    PlacesAfterMove(g, g', p);
    forall i | 0 <= i < |g'.rejected| ensures SignaturesOk(g'.rejected[i], g'.signers) {
      if i < |g.rejected| { assert SignaturesOk(g.rejected[i], g.signers); }
    }
  }

  lemma ApproveInv(g: Gov, p: Proposal, r: Reads)
    requires Inv(g) && p.id in g.pending && g.pending[p.id] == p && Ordered(g.clock, r)
    requires |p.signatures| >= g.required
    ensures Inv(Execute(g, p, r).0)
  {
    var g' := Execute(g, p, r).0;
    var recent := Prune(g.recent, r.check);
    if |recent| >= MAX_PER_DAY || Validate(p.target).Rejected? {
      RejectInv(g, p, r.check);
    } else if Validate(p.target).DividesByZero? {
      ClockAdvances(g.stamps, g.recent, g.clock, r.check);
      assert forall id :: Places(g', id) == Places(g, id);
    } else {
      ApproveStamps(g.stamps, g.recent, g.clock, r.check, r.stamp);
      PlacesAfterMove(g, g', p);
      forall i | 0 <= i < |g'.approved|
        ensures SignaturesOk(g'.approved[i], g'.signers) && |g'.approved[i].signatures| >= g.required
      {
        if i < |g.approved| { assert SignaturesOk(g.approved[i], g.signers); }
      }
    }
  }

  lemma AddSignatureInv(g: Gov, id: string, signer: string)
    requires Inv(g) && id in g.pending && signer in g.signers
    ensures Inv(g.(pending := g.pending[id := WithSignature(g.pending[id], signer)]))
  {
    var g' := g.(pending := g.pending[id := WithSignature(g.pending[id], signer)]);
    SignedProposal(g.pending[id], signer, g.signers);
    forall x ensures Places(g', x) == if x in g'.proposed then 1 else 0 {
      assert Places(g', x) == Places(g, x);
    }
  }

  lemma SignInv(g: Gov, id: string, signer: string, r: Reads)
    requires Inv(g) && Ordered(g.clock, r)
    ensures Inv(Sign(g, id, signer, r).0)
  {
    if signer in g.signers && id in g.pending {
      AddSignatureInv(g, id, signer);
      var p := WithSignature(g.pending[id], signer);
      var g1 := g.(pending := g.pending[id := p]);
      if |p.signatures| >= g.required {
        ApproveInv(g1, p, r);
      }
    }
  }

  lemma ProposeInv(g: Gov, id: string, proposer: string, target: Targets, now: real)
    requires Inv(g) && id !in g.proposed && g.clock <= now
    ensures Inv(Propose(g, id, proposer, target, now).0)
  {
    var g' := Propose(g, id, proposer, target, now).0;
    ClockAdvances(g.stamps, g.recent, g.clock, now);
    forall x ensures Places(g', x) == if x in g'.proposed then 1 else 0 {
      assert Places(g, x) == if x in g.proposed then 1 else 0;
    }
  }

  lemma RegisterInv(g: Gov, signer: string)
    requires Inv(g)
    ensures Inv(RegisterSigner(g, signer))
  {
    var g' := RegisterSigner(g, signer);
    assert forall x :: Places(g', x) == Places(g, x);
  }

  lemma OverrideInv(g: Gov, values: Values, codeAccepted: bool, now: real)
    requires Inv(g) && g.clock <= now
    ensures Inv(EmergencyOverride(g, values, codeAccepted, now).0)
  {
    var g' := EmergencyOverride(g, values, codeAccepted, now).0;
    if codeAccepted {
      ClockAdvances(g.stamps, g.recent, g.clock, now);
      assert forall x :: Places(g', x) == Places(g, x);
    }
  }

  // ----- runs -----

  datatype Op =
    | OpRegister(signer: string)
    | OpPropose(id: string, proposer: string, target: Targets, now: real)
    | OpSign(id: string, signer: string, clock: Reads)
    | OpOverride(values: Values, codeAccepted: bool, now: real)

  function Step(g: Gov, op: Op): Gov {
    match op
    case OpRegister(signer) => RegisterSigner(g, signer)
    case OpPropose(id, proposer, target, now) => Propose(g, id, proposer, target, now).0
    case OpSign(id, signer, clock) => Sign(g, id, signer, clock).0
    case OpOverride(values, codeAccepted, now) => EmergencyOverride(g, values, codeAccepted, now).0
  }

  /** The clock does not go back, and a new proposal gets a new id. */
  predicate Plausible(g: Gov, op: Op) {
    match op
    case OpRegister(_) => true
    case OpPropose(id, _, _, now) => id !in g.proposed && g.clock <= now
    case OpSign(_, _, clock) => Ordered(g.clock, clock)
    case OpOverride(_, _, now) => g.clock <= now
  }

  lemma StepInv(g: Gov, op: Op)
    requires Inv(g) && Plausible(g, op)
    ensures Inv(Step(g, op))
  {
    match op
    case OpRegister(signer) => RegisterInv(g, signer);
    case OpPropose(id, proposer, target, now) => ProposeInv(g, id, proposer, target, now);
    case OpSign(id, signer, clock) => SignInv(g, id, signer, clock);
    case OpOverride(values, codeAccepted, now) => OverrideInv(g, values, codeAccepted, now);
  }

  function Run(g: Gov, ops: seq<Op>): Option<Gov>
    decreases |ops|
  {
    if ops == [] then Some(g)
    else if !Plausible(g, ops[0]) then None
    else Run(Step(g, ops[0]), ops[1..])
  }

  lemma {:induction false} RunInv(g: Gov, ops: seq<Op>)
    requires Inv(g) && Run(g, ops).Some?
    ensures Inv(Run(g, ops).value)
    decreases |ops|
  {
    if ops != [] {
      StepInv(g, ops[0]);
      RunInv(Step(g, ops[0]), ops[1..]);
    }
  }

  /** Outside an override, values and version change only by executing one pending proposal
      that carries at least the required number of distinct signatures, each by a signer
      authorised by then; the new values are that proposal's, validated. */
  lemma ChangeNeedsSignatures(g: Gov, op: Op)
    requires Inv(g) && Plausible(g, op) && !op.OpOverride?
    ensures var g' := Step(g, op);
            g'.values != g.values || g'.version != g.version ==>
              && |g'.approved| == |g.approved| + 1 && g'.approved[..|g.approved|] == g.approved
              && var p := g'.approved[|g.approved|];
              && p.id in g.pending && p.target == g.pending[p.id].target
              && p.id !in g'.pending
              && Distinct(p.signatures) && |p.signatures| >= g.required
              && (forall i :: 0 <= i < |p.signatures| ==> p.signatures[i] in g.signers)
              && Validate(p.target) == Accepted(g'.values) && g'.version == g.version + 1
  {
    StepInv(g, op);
    if op.OpSign? && op.signer in g.signers && op.id in g.pending {
      SignedProposal(g.pending[op.id], op.signer, g.signers);
    }
  }

  // ----- the rate limit -----

  function CountWithin(stamps: seq<real>, a: real, b: real): nat {
    if stamps == [] then 0
    else CountWithin(stamps[..|stamps| - 1], a, b) + if a <= stamps[|stamps| - 1] < b then 1 else 0
  }

  // Of ordered stamps, the ones within a span are consecutive.
  lemma {:induction false} CountWithinBlock(stamps: seq<real>, a: real, b: real) returns (i: nat)
    requires SortedStamps(stamps)
    ensures i + CountWithin(stamps, a, b) <= |stamps|
    ensures forall j :: i <= j < i + CountWithin(stamps, a, b) ==> a <= stamps[j] < b
    ensures CountWithin(stamps, a, b) > 0 && stamps[|stamps| - 1] < b ==> i + CountWithin(stamps, a, b) == |stamps|
    ensures CountWithin(stamps, a, b) == 0 && stamps != [] ==> stamps[|stamps| - 1] < a || b <= stamps[|stamps| - 1]
  {
    if stamps == [] {
      i := 0;
    } else {
      var n := |stamps| - 1;
      var init := stamps[..n];
      i := CountWithinBlock(init, a, b);
      if a <= stamps[n] < b {
        if n > 0 { assert init[n - 1] <= stamps[n] < b; }
        if CountWithin(init, a, b) == 0 { i := n; }
      }
    }
  }

  /** Any span of at most a day contains at most three executed updates, in every
      reachable state. */
  lemma AtMostThreePerDay(g: Gov, a: real, b: real)
    requires Inv(g) && b - a <= 86400.0
    ensures CountWithin(g.stamps, a, b) <= 3
  {
    var i := CountWithinBlock(g.stamps, a, b);
    if CountWithin(g.stamps, a, b) > MAX_PER_DAY {
      BlockSpan(g.stamps, a, b, i);
    }
  }

  // Four stamps in a row take more than a day.
  lemma BlockSpan(stamps: seq<real>, a: real, b: real, i: nat)
    requires forall j :: 0 <= j < |stamps| - MAX_PER_DAY ==> stamps[j + MAX_PER_DAY] - stamps[j] >= DAY
    requires i + MAX_PER_DAY < |stamps| && a <= stamps[i] && stamps[i + MAX_PER_DAY] < b
    ensures b - a > DAY
  {
  }

  lemma EveryRun(values: Values, required: int, now: real, ops: seq<Op>, a: real, b: real)
    requires Run(Initial(values, required, now), ops).Some? && b - a <= 86400.0
    ensures var g := Run(Initial(values, required, now), ops).value;
            && Inv(g) && CountWithin(g.stamps, a, b) <= 3
  {
    InitialInv(values, required, now);
    RunInv(Initial(values, required, now), ops);
    AtMostThreePerDay(Run(Initial(values, required, now), ops).value, a, b);
  }
}
