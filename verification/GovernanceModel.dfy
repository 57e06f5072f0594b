/** Multi-signature updates of alignment values, with a rate limit, as functions of the
    governance state.  Every reading of the clock is a parameter. */
module GovernanceModel {

  /** NotANumber stands for a value that arithmetic raises TypeError on, such as a string. */
  datatype PyValue = Number(value: real) | NotANumber

  /** A dictionary in insertion order. */
  type Targets = seq<(string, PyValue)>
  type Values = seq<(string, real)>

  datatype Proposal = Proposal(id: string, proposedBy: string, target: Targets, signatures: seq<string>)

  /** `stamps`, `overrides`, `proposed` and `clock` record what happened: when each approved
      update was executed, how many overrides there were, which ids were ever proposed, and
      the latest reading of the clock. */
  datatype Gov = Gov(
    values: Values,
    version: int,
    lastUpdated: real,
    pending: map<string, Proposal>,
    approved: seq<Proposal>,
    rejected: seq<Proposal>,
    signers: set<string>,
    recent: seq<real>,
    required: int,
    stamps: seq<real>,
    overrides: nat,
    proposed: set<string>,
    clock: real)

  const DAY := 86400.0
  const MAX_PER_DAY := 3

  function Initial(values: Values, required: int, now: real): Gov {
    Gov(values, 1, now, map[], [], [], {}, [], required, [], 0, {}, now)
  }

  function RegisterSigner(g: Gov, signer: string): Gov {
    g.(signers := g.signers + {signer})
  }

  predicate IsKey(values: Values, key: string) {
    exists i :: 0 <= i < |values| && values[i].0 == key
  }

  /** The impact assessment subtracts the current value from every proposed one it knows. */
  predicate Assessable(values: Values, target: Targets) {
    forall i :: 0 <= i < |target| && IsKey(values, target[i].0) ==> target[i].1.Number?
  }

  /** A proposal is stored unless assessing it raises, which the flag says. */
  function Propose(g: Gov, id: string, proposer: string, target: Targets, now: real): (Gov, bool) {
    if !Assessable(g.values, target) then (g.(clock := now), true)
    else
      (g.(pending := g.pending[id := Proposal(id, proposer, target, [])], proposed := g.proposed + {id}, clock := now),
       false)
  }

  // ----- validation -----

  datatype Validation = Accepted(values: Values) | Rejected | DividesByZero

  function Clamp(x: real): (c: real)
    ensures 0.0 <= c <= 1.0
    ensures 0.0 <= x <= 1.0 ==> c == x
  {
    if x < 0.0 then 0.0 else if x > 1.0 then 1.0 else x
  }

  predicate AllNumbers(target: Targets) {
    forall i :: 0 <= i < |target| ==> target[i].1.Number?
  }

  function Clamped(target: Targets): (v: Values)
    requires AllNumbers(target)
    ensures |v| == |target| && forall i :: 0 <= i < |v| ==> v[i] == (target[i].0, Clamp(target[i].1.value))
  {
    seq(|target|, i requires 0 <= i < |target| && target[i].1.Number? => (target[i].0, Clamp(target[i].1.value)))
  }

  function Sum(v: Values): real {
    if v == [] then 0.0 else Sum(v[..|v| - 1]) + v[|v| - 1].1
  }

  function Scaled(v: Values, total: real): (w: Values)
    requires total != 0.0
    ensures |w| == |v| && forall i :: 0 <= i < |v| ==> w[i] == (v[i].0, v[i].1 / total)
  {
    seq(|v|, i requires 0 <= i < |v| => (v[i].0, v[i].1 / total))
  }

  predicate OffBalance(total: real) {
    total - 1.0 > 0.1 || 1.0 - total > 0.1
  }

  function Validate(target: Targets): Validation {
    if !AllNumbers(target) then Rejected
    else
      var v := Clamped(target);
      var total := Sum(v);
      if OffBalance(total) && |v| > 1 then
        if total == 0.0 then DividesByZero else Accepted(Scaled(v, total))
      else Accepted(v)
  }

  // ----- signing and execution -----

  /** The clock as it is read while a signature is processed: at the rate check, for the
      history hash, for the state, and for the stamp of the update. */
  datatype Reads = Reads(check: real, hash: real, state: real, stamp: real)

  predicate Ordered(from: real, r: Reads) {
    from <= r.check <= r.hash <= r.state <= r.stamp
  }

  /** What is left of the recent updates after dropping those a day old at time c. */
  function Prune(recent: seq<real>, c: real): seq<real> {
    if recent == [] then []
    else Prune(recent[..|recent| - 1], c) + if c - recent[|recent| - 1] < DAY then [recent[|recent| - 1]] else []
  }

  datatype SignResult = Returned(accepted: bool) | ZeroDivision

  function Rejecting(g: Gov, p: Proposal, recent: seq<real>, now: real): Gov {
    g.(recent := recent, rejected := g.rejected + [p], pending := g.pending - {p.id}, clock := now)
  }

  function Approving(g: Gov, p: Proposal, values: Values, recent: seq<real>, r: Reads): Gov {
    g.(values := values, version := g.version + 1, lastUpdated := r.state,
       recent := recent + [r.stamp], approved := g.approved + [p], pending := g.pending - {p.id},
       stamps := g.stamps + [r.stamp], clock := r.stamp)
  }

  function Execute(g: Gov, p: Proposal, r: Reads): (Gov, SignResult) {
    var recent := Prune(g.recent, r.check);
    if |recent| >= MAX_PER_DAY then
      (Rejecting(g, p, recent, r.check), Returned(true))
    else
      match Validate(p.target)
      case Rejected =>
        (Rejecting(g, p, recent, r.check), Returned(true))
      case DividesByZero =>
        (g.(recent := recent, clock := r.check), ZeroDivision)
      case Accepted(values) =>
        (Approving(g, p, values, recent, r), Returned(true))
  }

  function WithSignature(p: Proposal, signer: string): Proposal {
    if signer in p.signatures then p else p.(signatures := p.signatures + [signer])
  }

  function Sign(g: Gov, id: string, signer: string, r: Reads): (Gov, SignResult) {
    if signer !in g.signers then (g, Returned(false))
    else if id !in g.pending then (g, Returned(false))
    else
      var p := WithSignature(g.pending[id], signer);
      var g1 := g.(pending := g.pending[id := p]);
      if |p.signatures| >= g.required then Execute(g1, p, r) else (g1, Returned(true))
  }

  function EmergencyOverride(g: Gov, values: Values, codeAccepted: bool, now: real): (Gov, bool) {
    if !codeAccepted then (g, false)
    else
      (g.(values := values, version := g.version + 1, lastUpdated := now, overrides := g.overrides + 1, clock := now),
       true)
  }
}
