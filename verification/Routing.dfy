/**
 Routing by sender: a rule names one transport or several targets, each with an optional
 recipient override; `reject` in any letter case is no target.
 */
module Routing {
  import opened Mails

  datatype TargetConfig = TargetConfig(transport: string, recipients: seq<string>)

  datatype RouteRule = RouteRule(transport: Option<string>, recipients: seq<string>, targets: seq<TargetConfig>)

  datatype RoutingConfig = RoutingConfig(fallback: Option<RouteRule>, senders: map<string, RouteRule>)

  /** `recipients` is `None` where the original recipients stay. */
  datatype RouteTarget = RouteTarget(transport: string, recipients: Option<seq<Address>>)

  datatype Route = Reject | Deliver(targets: seq<RouteTarget>)

  function Lower(c: char): char { if 'A' <= c <= 'Z' then (c as int + 32) as char else c }

  /** `eq_ignore_ascii_case`. */
  predicate SameIgnoringCase(a: string, b: string) {
    |a| == |b| && forall i :: 0 <= i < |a| ==> Lower(a[i]) == Lower(b[i])
  }

  predicate IsReject(transport: string) { SameIgnoringCase(transport, "reject") }

  function Override(recipients: seq<string>): Option<seq<Address>> {
    if recipients == [] then None
    else Some(seq(|recipients|, i requires 0 <= i < |recipients| => Address(recipients[i], None)))
  }

  function TargetOf(t: TargetConfig): RouteTarget { RouteTarget(t.transport, Override(t.recipients)) }

  function ExpandTargets(ts: seq<TargetConfig>): seq<RouteTarget> {
    if ts == [] then []
    else if IsReject(ts[0].transport) then ExpandTargets(ts[1..])
    else [TargetOf(ts[0])] + ExpandTargets(ts[1..])
  }

  /** A rule with targets ignores its own transport. */
  function Expand(rule: RouteRule): seq<RouteTarget> {
    if rule.targets != [] then ExpandTargets(rule.targets)
    else if rule.transport.Some? && !IsReject(rule.transport.value) then
      [TargetOf(TargetConfig(rule.transport.value, rule.recipients))]
    else []
  }

  predicate IsActive(c: RoutingConfig) { c.fallback.Some? || c.senders != map[] }

  function RuleFor(c: RoutingConfig, sender: string): Option<RouteRule> {
    if sender in c.senders then Some(c.senders[sender]) else c.fallback
  }

  function Resolve(c: RoutingConfig, sender: string): Route {
    match RuleFor(c, sender)
    case None => Reject
    case Some(rule) => var targets := Expand(rule); if targets == [] then Reject else Deliver(targets)
  }

  /** The entries a rule offers: its targets, or else its single transport. */
  function Offered(rule: RouteRule): seq<TargetConfig> {
    if rule.targets != [] then rule.targets
    else if rule.transport.Some? then [TargetConfig(rule.transport.value, rule.recipients)]
    else []
  }

  /** How many of the first `n` entries are deliverable. */
  function Kept(ts: seq<TargetConfig>, n: nat): nat
    requires n <= |ts|
  {
    if n == 0 then 0 else Kept(ts, n - 1) + (if IsReject(ts[n - 1].transport) then 0 else 1)
  }

  lemma {:induction false} KeptTail(ts: seq<TargetConfig>, n: nat)
    requires 1 <= n <= |ts|
    ensures Kept(ts, n) == (if IsReject(ts[0].transport) then 0 else 1) + Kept(ts[1..], n - 1)
  {
    if n > 1 { KeptTail(ts, n - 1); assert ts[1..][n - 2] == ts[n - 1]; }
  }

  /** Deliverable entries appear in order, each at the place counted by those before it, and nothing else does. */
  lemma {:induction false} ExpandTargetsExact(ts: seq<TargetConfig>)
    ensures |ExpandTargets(ts)| == Kept(ts, |ts|)
    ensures forall i :: 0 <= i < |ts| && !IsReject(ts[i].transport) ==>
      Kept(ts, i) < |ExpandTargets(ts)| && ExpandTargets(ts)[Kept(ts, i)] == TargetOf(ts[i])
    ensures forall k :: 0 <= k < |ExpandTargets(ts)| ==> !IsReject(ExpandTargets(ts)[k].transport)
  {
    if ts != [] {
      ExpandTargetsExact(ts[1..]);
      KeptTail(ts, |ts|);
      forall i | 0 <= i < |ts| && !IsReject(ts[i].transport)
        ensures Kept(ts, i) < |ExpandTargets(ts)| && ExpandTargets(ts)[Kept(ts, i)] == TargetOf(ts[i])
      {
        if i > 0 {
          KeptTail(ts, i);
          assert ts[1..][i - 1] == ts[i];
        }
      }
    }
  }

  lemma {:induction false} NoneKept(ts: seq<TargetConfig>, n: nat)
    requires n <= |ts|
    ensures Kept(ts, n) == 0 <==> forall i :: 0 <= i < n ==> IsReject(ts[i].transport)
  {
    if n > 0 { NoneKept(ts, n - 1); }
  }

  lemma ExpandOffered(rule: RouteRule)
    ensures Expand(rule) == ExpandTargets(Offered(rule))
  {
    var ts := Offered(rule);
    if rule.targets == [] && rule.transport.Some? {
      assert ts[1..] == [] && ExpandTargets(ts[1..]) == [];
    }
  }

  /** A sender is rejected exactly when no rule applies or the rule offers nothing but `reject`. */
  lemma RejectedIff(c: RoutingConfig, sender: string)
    ensures Resolve(c, sender) == Reject <==>
            RuleFor(c, sender).None?
            || forall i :: 0 <= i < |Offered(RuleFor(c, sender).value)| ==>
                 IsReject(Offered(RuleFor(c, sender).value)[i].transport)
    ensures Resolve(c, sender).Deliver? ==>
            forall k :: 0 <= k < |Resolve(c, sender).targets| ==> !IsReject(Resolve(c, sender).targets[k].transport)
  {
    if RuleFor(c, sender).Some? {
      var rule := RuleFor(c, sender).value;
      ExpandOffered(rule);
      ExpandTargetsExact(Offered(rule));
      NoneKept(Offered(rule), |Offered(rule)|);
    }
  }

  // ----- spelled out -----

  /** A transport refuses exactly when it is the word `reject`, each letter in either case. */
  lemma RejectAnyCase(transport: string)
    ensures IsReject(transport) <==>
            |transport| == 6 && forall i :: 0 <= i < 6 ==> transport[i] == "reject"[i] || transport[i] == "REJECT"[i]
  {
  }

  /** The sender's own rule, or else the fallback. */
  ghost predicate Applies(c: RoutingConfig, sender: string, rule: RouteRule) {
    (sender in c.senders && c.senders[sender] == rule) || (sender !in c.senders && c.fallback == Some(rule))
  }

  /** The target has the entry's transport, and its recipients if it lists any. */
  ghost predicate Serves(target: RouteTarget, entry: TargetConfig) {
    && target.transport == entry.transport
    && if entry.recipients == [] then target.recipients == None
       else
         && target.recipients.Some? && |target.recipients.value| == |entry.recipients|
         && forall k :: 0 <= k < |entry.recipients| ==> target.recipients.value[k] == Address(entry.recipients[k], None)
  }

  /** The targets are the deliverable entries, each once, in order. */
  ghost predicate ServesAll(targets: seq<RouteTarget>, entries: seq<TargetConfig>) {
    && |targets| == Kept(entries, |entries|)
    && forall i :: 0 <= i < |entries| && !IsReject(entries[i].transport) ==>
         Kept(entries, i) < |targets| && Serves(targets[Kept(entries, i)], entries[i])
  }

  lemma TargetServes(entry: TargetConfig)
    ensures Serves(TargetOf(entry), entry)
  {
  }

  lemma ExpandServes(rule: RouteRule)
    ensures ServesAll(Expand(rule), Offered(rule))
  {
    var entries := Offered(rule);
    ExpandOffered(rule);
    ExpandTargetsExact(entries);
    forall i | 0 <= i < |entries| && !IsReject(entries[i].transport)
      ensures Kept(entries, i) < |Expand(rule)| && Serves(Expand(rule)[Kept(entries, i)], entries[i])
    {
      TargetServes(entries[i]);
    }
  }

  /** Every sender's route: refused without a rule or with none but refusing entries, otherwise all deliverable entries. */
  lemma ResolveExact(c: RoutingConfig, sender: string, rule: RouteRule, entries: seq<TargetConfig>)
    requires entries == (if rule.targets != [] then rule.targets
                         else match rule.transport
                              case Some(transport) => [TargetConfig(transport, rule.recipients)]
                              case None => [])
    ensures sender !in c.senders && c.fallback == None ==> Resolve(c, sender) == Reject
    ensures Applies(c, sender, rule) ==>
      if forall i :: 0 <= i < |entries| ==> IsReject(entries[i].transport) then Resolve(c, sender) == Reject
      else Resolve(c, sender).Deliver? && ServesAll(Resolve(c, sender).targets, entries)
  {
    assert entries == Offered(rule);
    if Applies(c, sender, rule) {
      ExpandServes(rule);
      NoneKept(entries, |entries|);
    }
  }
}
