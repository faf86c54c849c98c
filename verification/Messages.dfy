/**
 What the end of a message means, in terms of the session, the parsed message and the routing
 configuration alone: which messages are refused, which rows are tried for the others, and
 what each row says.
 */
module Messages {
  import opened Mails
  import opened QueueTable
  import opened Subject
  import opened Routing
  import opened Sessions
  import opened Fanout
  import opened Ingress

  // ----- addresses -----

  /** `r` stands in `s`, with only characters of `left` before it and of `right` behind. */
  ghost predicate Inside(s: string, r: string, left: char -> bool, right: char -> bool) {
    exists i: nat, j: nat :: InsideAt(s, r, left, right, i, j)
  }

  ghost predicate InsideAt(s: string, r: string, left: char -> bool, right: char -> bool, i: nat, j: nat) {
    && i <= j <= |s| && r == s[i..j]
    && (forall k :: 0 <= k < i ==> left(s[k])) && (forall k :: j <= k < |s| ==> right(s[k]))
  }

  lemma SliceOfSlice(s: string, i: nat, j: nat, k: nat, l: nat)
    requires i <= j <= |s| && k <= l <= j - i
    ensures s[i..j][k..l] == s[i + k..i + l]
  {
    var whole, a, b := s[i..j], s[i..j][k..l], s[i + k..i + l];
    forall x | 0 <= x < |a| ensures a[x] == b[x] { assert a[x] == whole[k + x] == s[i + k + x]; }
  }

  lemma InsideStep(s: string, r: string, u: string, left: char -> bool, right: char -> bool)
    requires Inside(s, r, left, right) && Inside(r, u, left, right)
    ensures Inside(s, u, left, right)
  {
    var i: nat, j: nat :| InsideAt(s, r, left, right, i, j);
    var k: nat, l: nat :| InsideAt(r, u, left, right, k, l);
    assert |r| == j - i && u == s[i..j][k..l];
    SliceOfSlice(s, i, j, k, l);
    assert forall x :: 0 <= x < i + k ==> left(s[x]) by {
      forall x | 0 <= x < i + k ensures left(s[x]) { if x >= i { assert s[x] == r[x - i]; } }
    }
    assert forall x :: i + l <= x < |s| ==> right(s[x]) by {
      forall x | i + l <= x < |s| ensures right(s[x]) { if x < j { assert s[x] == r[x - i]; } }
    }
    assert InsideAt(s, u, left, right, i + k, i + l);
  }

  lemma TrimStartInside(s: string, drop: char -> bool, left: char -> bool, right: char -> bool)
    requires forall c :: drop(c) ==> left(c)
    ensures Inside(s, TrimStart(s, drop), left, right)
  {
    SkippedAreDropped(s, drop, 0);
    assert InsideAt(s, TrimStart(s, drop), left, right, FirstKept(s, drop, 0), |s|);
  }

  lemma TrimEndInside(s: string, drop: char -> bool, left: char -> bool, right: char -> bool)
    requires forall c :: drop(c) ==> right(c)
    ensures Inside(s, TrimEnd(s, drop), left, right)
  {
    DroppedBehind(s, drop, |s|);
    assert InsideAt(s, TrimEnd(s, drop), left, right, 0, LastKept(s, drop, |s|));
  }

  lemma TrimInside(s: string, left: char -> bool, right: char -> bool)
    requires forall c :: Whitespace(c) ==> left(c) && right(c)
    ensures Inside(s, Trim(s), left, right)
  {
    TrimStartInside(s, Whitespace, left, right);
    TrimEndInside(TrimStart(s, Whitespace), Whitespace, left, right);
    InsideStep(s, TrimStart(s, Whitespace), Trim(s), left, right);
  }

  lemma TrimShows(s: string)
    ensures Trim(s) != "" ==> !Whitespace(Trim(s)[0]) && !Whitespace(Trim(s)[|Trim(s)| - 1])
  {
    var t := TrimStart(s, Whitespace);
    var k := FirstKept(s, Whitespace, 0);
    assert t != "" ==> t[0] == s[k];
  }

  /** An address loses nothing but white space and opening brackets in front, white space and closing ones behind. */
  lemma StripBracketsInside(raw: string)
    ensures Inside(raw, StripBrackets(raw), (c: char) => Whitespace(c) || c == '<', (c: char) => Whitespace(c) || c == '>')
    ensures var r := StripBrackets(raw); r != "" ==> !Whitespace(r[0]) && !Whitespace(r[|r| - 1])
  {
    var left, right := (c: char) => Whitespace(c) || c == '<', (c: char) => Whitespace(c) || c == '>';
    var a := Trim(raw);
    var b := TrimStart(a, (c: char) => c == '<');
    var d := TrimEnd(b, (c: char) => c == '>');
    TrimInside(raw, left, right);
    TrimStartInside(a, (c: char) => c == '<', left, right);
    TrimEndInside(b, (c: char) => c == '>', left, right);
    TrimInside(d, left, right);
    InsideStep(raw, a, b, left, right);
    InsideStep(raw, b, d, left, right);
    InsideStep(raw, d, Trim(d), left, right);
    TrimShows(d);
  }

  lemma {:induction false} FirstKeptIs(s: string, drop: char -> bool, i: nat, k: nat)
    requires i <= k <= |s| && (forall j :: i <= j < k ==> drop(s[j])) && (k < |s| ==> !drop(s[k]))
    ensures FirstKept(s, drop, i) == k
    decreases k - i
  {
    if i < k { FirstKeptIs(s, drop, i + 1, k); }
  }

  lemma {:induction false} LastKeptIs(s: string, drop: char -> bool, n: nat, k: nat)
    requires k <= n <= |s| && (forall j :: k <= j < n ==> drop(s[j])) && (k > 0 ==> !drop(s[k - 1]))
    ensures LastKept(s, drop, n) == k
    decreases n - k
  {
    if k < n { LastKeptIs(s, drop, n - 1, k); }
  }

  ghost predicate Only(s: string, kind: char -> bool) { forall k :: 0 <= k < |s| ==> kind(s[k]) }

  lemma TrimStartDrops(p: string, s: string, drop: char -> bool)
    requires Only(p, drop) && (s != "" ==> !drop(s[0]))
    ensures TrimStart(p + s, drop) == s
  {
    FirstKeptIs(p + s, drop, 0, |p|);
  }

  lemma TrimEndDrops(s: string, p: string, drop: char -> bool)
    requires Only(p, drop) && (s != "" ==> !drop(s[|s| - 1]))
    ensures TrimEnd(s + p, drop) == s
  {
    LastKeptIs(s + p, drop, |s + p|, |s|);
  }

  /** Where the text shows something at both ends, trimming drops the white space around it. */
  lemma TrimDrops(p: string, s: string, q: string)
    requires Only(p, Whitespace) && Only(q, Whitespace)
    requires s != "" && !Whitespace(s[0]) && !Whitespace(s[|s| - 1])
    ensures Trim(p + (s + q)) == s
  {
    assert (s + q)[0] == s[0];
    TrimStartDrops(p, s + q, Whitespace);
    TrimEndDrops(s, q, Whitespace);
  }

  /** An address in any number of angle brackets, with white space around, is recovered. */
  lemma BracketsStripped(p: string, open: string, address: string, close: string, q: string)
    requires Only(p, Whitespace) && Only(q, Whitespace)
    requires Only(open, (c: char) => c == '<') && Only(close, (c: char) => c == '>')
    requires address != "" && address[0] != '<' && address[|address| - 1] != '>'
    requires !Whitespace(address[0]) && !Whitespace(address[|address| - 1])
    ensures StripBrackets(p + ((open + (address + close)) + q)) == address
  {
    var core := open + (address + close);
    assert core[0] == if open != "" then open[0] else address[0];
    assert core[|core| - 1] == if close != "" then close[|close| - 1] else address[|address| - 1];
    TrimDrops(p, core, q);
    assert (address + close)[0] == address[0];
    TrimStartDrops(open, address + close, (c: char) => c == '<');
    TrimEndDrops(address, close, (c: char) => c == '>');
    assert "" + (address + "") == address;
    TrimDrops("", address, "");
  }

  // ----- what the message says -----

  /** The subject carries the label of a name in its own format, or else in the global one. */
  ghost predicate Labelled(c: SubjectConfig, name: string, original: string, subject: string) {
    var format := if name in c.senders then c.senders[name] else c.format;
    && ('%' !in name && Clean(format) ==> subject == Subject.Expand(Tokens(format), name, original))
    && (KeepsOriginal(format) ==> Contains(subject, original))
  }

  /** Sender, subject and body of a payload are those of the session and the parsed message. */
  ghost predicate Carries(ctx: Context, s: Session, p: Parsed, content: NewMail) {
    var original := if p.subject.Some? then p.subject.value else "";
    && content.from == Address(StripBrackets(s.from), None)
    && content.body == (if p.body.Some? then p.body.value else ctx.lossyText(s.data))
    && match s.identity
       case Some(name) => Labelled(ctx.subject, name, original, content.subject)
       case None =>
         match ctx.extractName(original)
         case Some(name) => Labelled(ctx.subject, name, original, content.subject)
         case None => content.subject == original
  }

  /** The recipients are those of the envelope, one for each `RCPT`, in order. */
  ghost predicate ToEnvelope(s: Session, to: seq<Address>) {
    |to| == |s.recipients| && forall k :: 0 <= k < |to| ==> to[k] == Address(StripBrackets(s.recipients[k]), None)
  }

  lemma RenderLabels(c: SubjectConfig, name: string, original: string)
    ensures Labelled(c, name, original, Render(c, name, original))
  {
    if '%' !in name { CleanFormatsRender(c, name, original); }
    RenderKeepsOriginal(c, name, original);
  }

  lemma BuiltExact(ctx: Context, s: Session)
    ensures match ctx.parse(s.data)
            case None => BuildNewMail(ctx, s) == Err(InvalidMail("could not parse message"))
            case Some(p) =>
              && BuildNewMail(ctx, s).Ok?
              && var m := BuildNewMail(ctx, s).value;
                 Carries(ctx, s, p, m) && ToEnvelope(s, m.to) && m.transport == None
  {
    if ctx.parse(s.data).Some? {
      var p := ctx.parse(s.data).value;
      var original := if p.subject.Some? then p.subject.value else "";
      if s.identity.Some? {
        RenderLabels(ctx.subject, s.identity.value, original);
      } else if ctx.extractName(original).Some? {
        RenderLabels(ctx.subject, ctx.extractName(original).value, original);
      }
    }
  }

  // ----- which rows are tried -----

  /** A candidate for one entry of a rule: its transport unless unnamed, its recipients if it lists any, the message otherwise. */
  ghost predicate Fits(ctx: Context, s: Session, p: Parsed, entry: TargetConfig, a: Attempt, c: Candidate) {
    && Carries(ctx, s, p, c.row.content)
    && c.row.content.transport == (if entry.transport == "" then None else Some(entry.transport))
    && (if entry.recipients == [] then ToEnvelope(s, c.row.content.to)
        else
          && |c.row.content.to| == |entry.recipients|
          && forall k :: 0 <= k < |entry.recipients| ==> c.row.content.to[k] == Address(entry.recipients[k], None))
    && c.row.id == a.id && c.row.status == Pending && c.row.attempts == 0 && c.row.lastError == None
    && c.row.createdAt == a.now && c.row.updatedAt == a.now && c.row.nextAttemptAt == a.now
    && (c.sound <==> Validate(c.row.content).Ok? && !a.fault) && c.heard == !a.lost
  }

  /** One candidate for each deliverable entry, in order. */
  ghost predicate FitsAll(ctx: Context, s: Session, p: Parsed, entries: seq<TargetConfig>, tries: Attempts, cs: seq<Candidate>) {
    && |cs| == Kept(entries, |entries|)
    && forall i :: 0 <= i < |entries| && !IsReject(entries[i].transport) ==>
         && Kept(entries, i) < |cs|
         && Fits(ctx, s, p, entries[i], tries(Kept(entries, i)), cs[Kept(entries, i)])
  }

  lemma CandidateFits(ctx: Context, s: Session, p: Parsed, base: NewMail, entry: TargetConfig, target: RouteTarget, a: Attempt)
    requires Carries(ctx, s, p, base) && ToEnvelope(s, base.to) && base.transport == None && Serves(target, entry)
    ensures Fits(ctx, s, p, entry, a, CandidateFor(base, target, a))
  {
  }

  lemma CandidatesFit(ctx: Context, s: Session, p: Parsed, base: NewMail, entries: seq<TargetConfig>,
                      targets: seq<RouteTarget>, tries: Attempts)
    requires Carries(ctx, s, p, base) && ToEnvelope(s, base.to) && base.transport == None && ServesAll(targets, entries)
    ensures FitsAll(ctx, s, p, entries, tries, Candidates(base, targets, tries))
  {
    var cs := Candidates(base, targets, tries);
    forall i | 0 <= i < |entries| && !IsReject(entries[i].transport)
      ensures Kept(entries, i) < |cs| && Fits(ctx, s, p, entries[i], tries(Kept(entries, i)), cs[Kept(entries, i)])
    {
      var k := Kept(entries, i);
      CandidateFits(ctx, s, p, base, entries[i], targets[k], tries(k));
    }
  }

  /** No rule for anyone. */
  predicate NoRouting(c: RoutingConfig) { c.fallback == None && c.senders == map[] }

  ghost predicate OnlyRejects(entries: seq<TargetConfig>) {
    forall i :: 0 <= i < |entries| ==> IsReject(entries[i].transport)
  }

  /**
   What is planned for a message: refused if it cannot be parsed; refused if there is routing
   but no rule for its sender, or one that offers only `reject`; without routing one row for the
   default transport and the envelope's recipients; otherwise one row per deliverable entry.
   */
  ghost predicate Planned(ctx: Context, s: Session, tries: Attempts, rule: RouteRule, plan: (Reply, seq<Candidate>)) {
    var sender := StripBrackets(s.from);
    match ctx.parse(s.data)
    case None => plan == (Rejected(InvalidMail("could not parse message")), [])
    case Some(p) =>
      && (NoRouting(ctx.routing) ==>
            plan.0 == Okay && |plan.1| == 1 && Fits(ctx, s, p, TargetConfig("", []), tries(0), plan.1[0]))
      && (!NoRouting(ctx.routing) && sender !in ctx.routing.senders && ctx.routing.fallback == None ==>
            plan == (SenderNotPermitted, []))
      && (Applies(ctx.routing, sender, rule) ==>
            if OnlyRejects(Offered(rule)) then plan == (SenderNotPermitted, [])
            else plan.0 == Okay && FitsAll(ctx, s, p, Offered(rule), tries, plan.1))
  }

  lemma PlanExact(ctx: Context, s: Session, tries: Attempts, rule: RouteRule)
    ensures Planned(ctx, s, tries, rule, Plan(ctx, s, tries))
  {
    BuiltExact(ctx, s);
    if ctx.parse(s.data).Some? {
      RouteExact(ctx, s, ctx.parse(s.data).value, BuildNewMail(ctx, s), tries, rule);
    }
  }

  lemma RouteExact(ctx: Context, s: Session, p: Parsed, built: Result<NewMail>, tries: Attempts, rule: RouteRule)
    requires ctx.parse(s.data) == Some(p) && built.Ok?
    requires Carries(ctx, s, p, built.value) && ToEnvelope(s, built.value.to) && built.value.transport == None
    ensures Planned(ctx, s, tries, rule, PlanFor(ctx.routing, built, tries))
  {
    var base := built.value;
    var sender := StripBrackets(s.from);
    assert base.from.email == sender;
    ResolveExact(ctx.routing, sender, rule, Offered(rule));
    if NoRouting(ctx.routing) {
      CandidateFits(ctx, s, p, base, TargetConfig("", []), RouteTarget("", None), tries(0));
    } else if Applies(ctx.routing, sender, rule) && !OnlyRejects(Offered(rule)) {
      CandidatesFit(ctx, s, p, base, Offered(rule), Resolve(ctx.routing, sender).targets, tries);
    }
  }

  // ----- the end of the data -----

  /** The plan at the end of the data is that of the transaction the history tells. */
  lemma PlanOfHistory(ctx: Context, h: seq<Callback>, tries: Attempts, rule: RouteRule)
    ensures Planned(ctx, SessionOf(ctx.gate, h), tries, rule, Plan(ctx, Replay(ctx.gate, h), tries))
  {
    ReplayIsSession(ctx.gate, h);
    PlanExact(ctx, SessionOf(ctx.gate, h), tries, rule);
  }

  /** A refused message is answered as planned, and the queue is as it was. */
  lemma RefusedLeavesQueue(plan: (Reply, seq<Candidate>), t: Table, others: Others)
    requires plan.0 != Okay && plan.1 == []
    ensures ReplyTo(plan, t, others) == plan.0 && TableAfter(plan, t, others) == t
  {
  }

  /**
   Messages that cannot be parsed, and messages of senders that routing does not permit, are
   answered so and leave the queue as it was.
   */
  lemma Refusals(ctx: Context, h: seq<Callback>, tries: Attempts, rule: RouteRule, t: Table, others: Others)
    ensures var s, plan := SessionOf(ctx.gate, h), Plan(ctx, Replay(ctx.gate, h), tries);
            var sender, routing := StripBrackets(s.from), ctx.routing;
            && (ctx.parse(s.data) == None ==>
                  && ReplyTo(plan, t, others) == Rejected(InvalidMail("could not parse message"))
                  && TableAfter(plan, t, others) == t)
            && (ctx.parse(s.data) != None && !NoRouting(routing)
                && ((sender !in routing.senders && routing.fallback == None)
                    || (Applies(routing, sender, rule) && OnlyRejects(Offered(rule)))) ==>
                  ReplyTo(plan, t, others) == SenderNotPermitted && TableAfter(plan, t, others) == t)
  {
    PlanOfHistory(ctx, h, tries, rule);
    var plan := Plan(ctx, Replay(ctx.gate, h), tries);
    if plan.0 != Okay && plan.1 == [] { RefusedLeavesQueue(plan, t, others); }
  }

  /** Every row stored for a message by a rule says what the session, the message and the rule's entry say. */
  lemma StoredSays(ctx: Context, h: seq<Callback>, tries: Attempts, rule: RouteRule, t: Table, others: Others, i: nat)
    requires var s := SessionOf(ctx.gate, h);
             && ctx.parse(s.data).Some? && Applies(ctx.routing, StripBrackets(s.from), rule)
             && i < |Offered(rule)| && !IsReject(Offered(rule)[i].transport)
    ensures var s, cs := SessionOf(ctx.gate, h), Plan(ctx, Replay(ctx.gate, h), tries).1;
            var k := Kept(Offered(rule), i);
            && k < |cs| && Fits(ctx, s, ctx.parse(s.data).value, Offered(rule)[i], tries(k), cs[k])
            && (Wins(t, cs, others, k) ==>
                  Holds(TableAfter(Plan(ctx, Replay(ctx.gate, h), tries), t, others), cs[k].row))
  {
    PlanOfHistory(ctx, h, tries, rule);
    var cs, k := Plan(ctx, Replay(ctx.gate, h), tries).1, Kept(Offered(rule), i);
    assert k < |cs|;
    if Wins(t, cs, others, k) { WinnerStays(t, cs, others, k, |cs|); }
  }

  /** Without routing the one row stored says what the session and the message say, for the default transport. */
  lemma StoredWithoutRouting(ctx: Context, h: seq<Callback>, tries: Attempts, t: Table, others: Others)
    requires ctx.parse(SessionOf(ctx.gate, h).data).Some? && NoRouting(ctx.routing)
    ensures var s, plan := SessionOf(ctx.gate, h), Plan(ctx, Replay(ctx.gate, h), tries);
            && |plan.1| == 1 && Fits(ctx, s, ctx.parse(s.data).value, TargetConfig("", []), tries(0), plan.1[0])
            && (Wins(t, plan.1, others, 0) ==> Holds(TableAfter(plan, t, others), plan.1[0].row))
  {
    PlanOfHistory(ctx, h, tries, RouteRule(None, [], []));
    var cs := Plan(ctx, Replay(ctx.gate, h), tries).1;
    if Wins(t, cs, others, 0) { WinnerStays(t, cs, others, 0, |cs|); }
  }
}
