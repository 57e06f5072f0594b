/** The governance object and its methods.  Each time the source reads the clock, the
    method here takes the reading as an argument; new proposal ids come in the same way. */
module Governance {
  import opened Model = GovernanceModel

  class ValueLockInPrevention {
    const required: int
    var values: Values
    var version: int
    var lastUpdated: real
    var pending: map<string, Proposal>
    var approved: seq<Proposal>
    var rejected: seq<Proposal>
    var signers: set<string>
    var recent: seq<real>

    // What happened so far, for the statements about runs.
    ghost var stamps: seq<real>
    ghost var overrides: nat
    ghost var proposed: set<string>
    ghost var clock: real

    ghost function View(): Gov
      reads this
    {
      Gov(values, version, lastUpdated, pending, approved, rejected, signers, recent, required,
          stamps, overrides, proposed, clock)
    }

    constructor (initialValues: Values, requiredSignatures: int, now: real)
      ensures View() == Initial(initialValues, requiredSignatures, now)
    {
      required, values, version, lastUpdated := requiredSignatures, initialValues, 1, now;
      pending, approved, rejected, signers, recent := map[], [], [], {}, [];
      stamps, overrides, proposed, clock := [], 0, {}, now;
    }

    method RegisterSigner(signer: string)
      modifies this
      ensures View() == Model.RegisterSigner(old(View()), signer)
    {
      signers := signers + {signer};
    }

    method ProposeUpdate(id: string, proposer: string, target: Targets, now: real) returns (raised: bool)
      modifies this
      ensures (View(), raised) == Propose(old(View()), id, proposer, target, now)
    {
      clock := now;
      raised := AssessImpact(target);
      if !raised {
        pending := pending[id := Proposal(id, proposer, target, [])];
        proposed := proposed + {id};
      }
    }

    /** The assessment itself only informs; what matters here is whether it gets through. */
    method AssessImpact(target: Targets) returns (raised: bool)
      ensures raised == !Assessable(values, target)
    {
      for i := 0 to |target|
        invariant Assessable(values, target[..i])
      {
        if IsKey(values, target[i].0) && target[i].1.NotANumber? {
          return true;
        }
      }
      assert target[..|target|] == target;
      raised := false;
    }

    method ValidateValues(target: Targets) returns (result: Validation)
      ensures result == Validate(target)
    {
      var validated: Values := [];
      for i := 0 to |target|
        invariant AllNumbers(target[..i]) && validated == Clamped(target[..i])
      {
        if target[i].1.NotANumber? {
          assert !AllNumbers(target);
          return Rejected;
        }
        validated := validated + [(target[i].0, Clamp(target[i].1.value))];
      }
      assert target[..|target|] == target;
      var total := 0.0;
      for i := 0 to |validated|
        invariant total == Sum(validated[..i])
      {
        assert validated[..i + 1][..i] == validated[..i];
        total := total + validated[i].1;
      }
      assert validated[..|validated|] == validated;
      if OffBalance(total) && |validated| > 1 {
        if total == 0.0 {
          return DividesByZero;
        }
        return Accepted(Scaled(validated, total));
      }
      return Accepted(validated);
    }

    method CheckRateLimit(now: real) returns (allowed: bool)
      modifies this`recent
      ensures recent == Prune(old(recent), now) && allowed == (|recent| < MAX_PER_DAY)
    {
      var kept := [];
      for i := 0 to |recent|
        invariant kept == Prune(recent[..i], now)
        invariant recent == old(recent)
      {
        assert recent[..i + 1][..i] == recent[..i];
        if now - recent[i] < DAY {
          kept := kept + [recent[i]];
        }
      }
      assert recent[..|recent|] == recent;
      recent := kept;
      allowed := |recent| < MAX_PER_DAY;
    }

    method ExecuteUpdate(p: Proposal, r: Reads) returns (result: SignResult)
      modifies this
      ensures (View(), result) == Execute(old(View()), p, r)
    {
      var allowed := CheckRateLimit(r.check);
      clock := r.check;
      if !allowed {
        Reject(p);
        return Returned(true);
      }
      var validated := ValidateValues(p.target);
      if validated.DividesByZero? {
        return ZeroDivision;
      }
      if validated.Rejected? {
        Reject(p);
        return Returned(true);
      }
      Apply(p, validated.values, r);
      return Returned(true);
    }

    method Reject(p: Proposal)
      modifies this
      ensures View() == Rejecting(old(View()), p, old(recent), old(clock))
    {
      rejected, pending := rejected + [p], pending - {p.id};
    }

    method Apply(p: Proposal, validated: Values, r: Reads)
      modifies this
      ensures View() == Approving(old(View()), p, validated, old(recent), r)
    {
      values, version, lastUpdated := validated, version + 1, r.state;
      recent, approved := recent + [r.stamp], approved + [p];
      Forget(p.id);
      stamps, clock := stamps + [r.stamp], r.stamp;
    }

    method Forget(id: string)
      modifies this`pending
      ensures pending == old(pending) - {id}
    {
      if id in pending {
        pending := pending - {id};
      } else {
        assert pending - {id} == pending;
      }
    }

    method SignProposal(id: string, signer: string, r: Reads) returns (result: SignResult)
      modifies this
      ensures (View(), result) == Sign(old(View()), id, signer, r)
    {
      if signer !in signers {
        return Returned(false);
      }
      if id !in pending {
        return Returned(false);
      }
      var p := pending[id];
      if signer !in p.signatures {
        p := p.(signatures := p.signatures + [signer]);
      }
      pending := pending[id := p];
      if |p.signatures| >= required {
        result := ExecuteUpdate(p, r);
        return result;
      }
      return Returned(true);
    }

    method EmergencyOverride(overrideValues: Values, codeAccepted: bool, now: real) returns (ok: bool)
      modifies this
      ensures (View(), ok) == Model.EmergencyOverride(old(View()), overrideValues, codeAccepted, now)
    {
      if !codeAccepted {
        return false;
      }
      values, version, lastUpdated := overrideValues, version + 1, now;
      overrides, clock := overrides + 1, now;
      return true;
    }
  }
}
