/** The decision of the shell policy hook: which rule decides a segment, and whether a
    whole command may run. */
module ShellPolicy {
  import opened Options
  import opened PyText
  import Glob
  import Sequences
  import Splitter

  datatype Effect = Allow | Deny

  datatype Rule = Rule(tool: string, pattern: Option<string>, effect: Effect, title: string)

  datatype Grant = Grant(command: string, exact: bool, completion: bool)

  datatype Policy = Policy(failClosed: bool, rules: seq<Rule>, grants: seq<Grant>)

  datatype Denial = NotSimple | ByRule(rule: Rule)

  // ----- Rank

  function WithoutStars(pattern: string): string {
    if pattern == [] then []
    else (if pattern[0] == '*' then [] else [pattern[0]]) + WithoutStars(pattern[1..])
  }

  /** `_literal_length` */
  function LiteralLength(pattern: Option<string>): nat {
    match pattern
    case None => 0
    case Some(p) => |RStrip(WithoutStars(p))|
  }

  /** Scoped beats bash's own unscoped rule, which beats `*`. */
  function Tier(rule: Rule): nat {
    if rule.pattern.Some? then 2 else if rule.tool != "*" then 1 else 0
  }

  function ActionRank(effect: Effect): nat {
    if effect == Deny then 2 else 0
  }

  datatype Rank = Rank(tier: nat, literal: nat, action: nat) {
    /** The order of Python's tuples. */
    predicate Above(other: Rank) {
      || tier > other.tier
      || (tier == other.tier && literal > other.literal)
      || (tier == other.tier && literal == other.literal && action > other.action)
    }
  }

  function RankOf(rule: Rule): Rank {
    Rank(Tier(rule), LiteralLength(rule.pattern), ActionRank(rule.effect))
  }

  /** The rule speaks about the command: it has no pattern or its pattern means the command. */
  ghost predicate Applies(rule: Rule, command: string) {
    match rule.pattern
    case None => true
    case Some(p) => Glob.Means(p, command) || Glob.CoversBare(p, command)
  }

  /** An applicable rule that no applicable rule outranks. */
  ghost predicate IsTop(rules: seq<Rule>, command: string, rule: Rule) {
    && rule in rules && Applies(rule, command)
    && forall other :: other in rules && Applies(other, command) ==> !RankOf(other).Above(RankOf(rule))
  }

  /** `_winner`: None exactly when no rule applies, and otherwise the first rule of top rank. */
  method Winner(rules: seq<Rule>, command: string) returns (best: Option<Rule>)
    ensures best == None <==> forall rule :: rule in rules ==> !Applies(rule, command)
    ensures best.Some? ==> IsTop(rules, command, best.value)
    ensures best.Some? ==>
      exists i :: 0 <= i < |rules| && rules[i] == best.value &&
                  forall j :: 0 <= j < i ==> !IsTop(rules, command, rules[j])
  {
    best := None;
    ghost var at := 0;
    for n := 0 to |rules|
      invariant best == None <==> forall j :: 0 <= j < n ==> !Applies(rules[j], command)
      invariant best.Some? ==> 0 <= at < n && rules[at] == best.value && Applies(best.value, command)
      invariant best.Some? ==>
        forall j :: 0 <= j < n && Applies(rules[j], command) ==>
          !RankOf(rules[j]).Above(RankOf(best.value)) &&
          (j < at ==> RankOf(best.value).Above(RankOf(rules[j])))
    {
      var rule := rules[n];
      if rule.pattern.Some? {
        var matched := Glob.GlobMatches(rule.pattern.value, command);
        if !matched {
          continue;
        }
      }
      if best == None || RankOf(rule).Above(RankOf(best.value)) {
        best, at := Some(rule), n;
      }
    }
    if best.Some? {
      forall j | 0 <= j < at ensures !IsTop(rules, command, rules[j]) {
        if Applies(rules[j], command) {
          assert best.value in rules && RankOf(best.value).Above(RankOf(rules[j]));
        }
      }
    }
  }

  // ----- Which segments are denied

  ghost predicate Denied(rules: seq<Rule>, command: string) {
    exists rule :: IsTop(rules, command, rule) && rule.effect == Deny
  }

  lemma TopRanksAreEqual(rules: seq<Rule>, command: string, a: Rule, b: Rule)
    requires IsTop(rules, command, a) && IsTop(rules, command, b)
    ensures RankOf(a) == RankOf(b) && a.effect == b.effect
  {}

  lemma {:induction false} TopExists(rules: seq<Rule>, command: string, rule: Rule) returns (top: Rule)
    requires rule in rules && Applies(rule, command)
    ensures IsTop(rules, command, top) && !RankOf(rule).Above(RankOf(top))
  {
    var last, rest := rules[|rules| - 1], rules[..|rules| - 1];
    if rule in rest {
      top := TopExists(rest, command, rule);
      if Applies(last, command) && RankOf(last).Above(RankOf(top)) {
        top := last;
      }
    } else if other :| other in rest && Applies(other, command) {
      top := TopExists(rest, command, other);
      if Applies(last, command) && RankOf(last).Above(RankOf(top)) {
        top := last;
      }
    } else {
      top := last;
    }
    assert forall r :: r in rules <==> r in rest || r == last;
  }

  /** A segment is denied exactly when some applicable deny is outranked by no applicable
      allow: deny wins ties. */
  lemma DeniedIffUnbeatenDeny(rules: seq<Rule>, command: string)
    ensures Denied(rules, command) <==>
      exists d :: d in rules && Applies(d, command) && d.effect == Deny &&
        forall a :: a in rules && Applies(a, command) && a.effect == Allow ==> !RankOf(a).Above(RankOf(d))
  {
    forall d | d in rules && Applies(d, command) && d.effect == Deny &&
        forall a :: a in rules && Applies(a, command) && a.effect == Allow ==> !RankOf(a).Above(RankOf(d))
      ensures Denied(rules, command)
    {
      var top := TopExists(rules, command, d);
      assert RankOf(top) == RankOf(d) || RankOf(top).Above(RankOf(d));
    }
  }

  // ----- The decision

  /** `_granted` */
  predicate Granted(grant: Grant, text: string) {
    text == grant.command || (!grant.exact && StartsWith(text, grant.command + " "))
  }

  function ShellRules(rules: seq<Rule>): seq<Rule> {
    if rules == [] then []
    else
      var rest := ShellRules(rules[..|rules| - 1]);
      var raw := rules[|rules| - 1];
      if raw.tool == "bash" || raw.tool == "*" then rest + [raw] else rest
  }

  function GrantRules(grants: seq<Grant>): seq<Rule> {
    seq(|grants|, i requires 0 <= i < |grants| =>
      Rule("bash", Some(if grants[i].exact then grants[i].command else grants[i].command + " *"),
           Allow, "Meridian platform command"))
  }

  predicate CompletionGranted(policy: Policy, segments: seq<string>) {
    |segments| == 1 &&
    exists i :: 0 <= i < |policy.grants| && policy.grants[i].completion && Granted(policy.grants[i], segments[0])
  }

  predicate AnyGranted(policy: Policy, segments: seq<string>) {
    |segments| == 1 && exists i :: 0 <= i < |policy.grants| && Granted(policy.grants[i], segments[0])
  }

  /** The rules a command's segments are decided by. */
  function EffectiveRules(policy: Policy, segments: seq<string>): seq<Rule> {
    ShellRules(policy.rules) + if AnyGranted(policy, segments) then GrantRules(policy.grants) else []
  }

  /** The command is simple enough for the policy: a policy that fails closed accepts only
      commands strict splitting accepts. */
  predicate SimpleEnough(policy: Policy, command: string) {
    policy.failClosed ==>
      !Splitter.HasForbidden(command) && Splitter.QuoteAfter(command) == Splitter.Unquoted
      && Splitter.Segments(command) != []
  }

  ghost predicate NoneDenied(rules: seq<Rule>, segments: seq<string>) {
    forall i :: 0 <= i < |segments| ==> !Denied(rules, segments[i])
  }

  ghost predicate SegmentsPass(policy: Policy, segments: seq<string>) {
    CompletionGranted(policy, segments) || NoneDenied(EffectiveRules(policy, segments), segments)
  }

  ghost predicate Passes(policy: Policy, command: string) {
    SimpleEnough(policy, command) && SegmentsPass(policy, Splitter.Segments(command))
  }

  /** `decide`: None lets the command run, exactly when it passes; a denial by rule names a
      top-ranked deny of the first segment that is denied. */
  method Decide(policy: Policy, command: string) returns (reason: Option<Denial>)
    ensures reason == None <==> Passes(policy, command)
    ensures reason == None <==> PassesByFields(policy, command)
    ensures reason == Some(NotSimple) <==>
      policy.failClosed
      && (Splitter.HasForbidden(command) || Splitter.QuoteAfter(command) != Splitter.Unquoted || Splitter.Segments(command) == [])
    ensures reason.Some? && reason.value.ByRule? ==>
      var segments := Splitter.Segments(command);
      FirstDenial(EffectiveRules(policy, segments), segments, reason.value.rule)
    ensures reason.Some? && reason.value.ByRule? ==>
      var segments := Splitter.Segments(command);
      DenialByFields(EffectiveRules(policy, segments), segments, reason.value.rule)
  {
    hide Splitter.HasForbidden, Splitter.QuoteAfter, Splitter.Segments, FirstDenial, DenialByFields, PassesByFields, SegmentsPass,
         EffectiveRules;
    PassesIsByFields(policy, command);
    var split := Splitter.SplitSegments(command, policy.failClosed);
    if split == None {
      return Some(NotSimple);
    }
    reason := DecideSplit(policy, split.value);
    if reason.Some? {
      DenialIsByFields(EffectiveRules(policy, split.value), split.value, reason.value.rule);
    }
  }

  /** `decide`, once the command is split. */
  method DecideSplit(policy: Policy, segments: seq<string>) returns (reason: Option<Denial>)
    ensures reason == None <==> SegmentsPass(policy, segments)
    ensures reason.Some? ==>
      reason.value.ByRule? && FirstDenial(EffectiveRules(policy, segments), segments, reason.value.rule)
  {
    var rules := ShellRules(policy.rules);
    if |segments| == 1 {
      if exists i :: 0 <= i < |policy.grants| && policy.grants[i].completion && Granted(policy.grants[i], segments[0]) {
        return None;
      }
      if exists i :: 0 <= i < |policy.grants| && Granted(policy.grants[i], segments[0]) {
        rules := rules + GrantRules(policy.grants);
      }
    }
    reason := DecideSegments(rules, segments);
  }

  ghost predicate FirstDenial(rules: seq<Rule>, segments: seq<string>, rule: Rule) {
    exists i :: 0 <= i < |segments| && IsTop(rules, segments[i], rule) && rule.effect == Deny &&
                NoneDenied(rules, segments[..i])
  }

  /** The last loop of `decide`. */
  method DecideSegments(rules: seq<Rule>, segments: seq<string>) returns (reason: Option<Denial>)
    ensures reason == None <==> NoneDenied(rules, segments)
    ensures reason.Some? ==> reason.value.ByRule? && FirstDenial(rules, segments, reason.value.rule)
  {
    for n := 0 to |segments|
      invariant NoneDenied(rules, segments[..n])
    {
      var winner := Winner(rules, segments[n]);
      DeniedByWinner(rules, segments[n], winner);
      if winner.Some? && winner.value.effect == Deny {
        return Some(ByRule(winner.value));
      }
    }
    return None;
  }

  lemma DeniedByWinner(rules: seq<Rule>, command: string, winner: Option<Rule>)
    requires winner == None ==> forall rule :: rule in rules ==> !Applies(rule, command)
    requires winner.Some? ==> IsTop(rules, command, winner.value)
    ensures Denied(rules, command) <==> winner.Some? && winner.value.effect == Deny
  {
    forall rule | IsTop(rules, command, rule) && winner.Some?
      ensures rule.effect == winner.value.effect
    {
      TopRanksAreEqual(rules, command, rule, winner.value);
    }
  }

  // ----- What the decision promises

  lemma {:induction false} ShellRulesMembers(rules: seq<Rule>)
    ensures forall rule :: rule in ShellRules(rules) <==> rule in rules && (rule.tool == "bash" || rule.tool == "*")
  {
    if rules != [] {
      ShellRulesMembers(rules[..|rules| - 1]);
      assert forall rule :: rule in rules <==> rule in rules[..|rules| - 1] || rule == rules[|rules| - 1];
    }
  }

  /** Only which rules there are matters for a segment, not their order or number. */
  lemma DeniedBySet(rules: seq<Rule>, others: seq<Rule>, command: string)
    requires forall rule :: rule in rules <==> rule in others
    ensures Denied(rules, command) <==> Denied(others, command)
  {
    forall rule ensures IsTop(rules, command, rule) <==> IsTop(others, command, rule) {}
  }

  lemma SegmentsPassBySet(policy: Policy, reordered: seq<Rule>, segments: seq<string>)
    requires forall rule :: rule in policy.rules <==> rule in reordered
    ensures SegmentsPass(policy, segments) <==> SegmentsPass(policy.(rules := reordered), segments)
  {
    var other := policy.(rules := reordered);
    ShellRulesMembers(policy.rules);
    ShellRulesMembers(reordered);
    forall i | 0 <= i < |segments|
      ensures Denied(EffectiveRules(policy, segments), segments[i]) <==>
              Denied(EffectiveRules(other, segments), segments[i])
    {
      DeniedBySet(EffectiveRules(policy, segments), EffectiveRules(other, segments), segments[i]);
    }
  }

  /** The decision does not depend on the order of the rules. */
  lemma OrderIsIrrelevant(policy: Policy, reordered: seq<Rule>, command: string)
    requires multiset(policy.rules) == multiset(reordered)
    ensures Passes(policy, command) <==> Passes(policy.(rules := reordered), command)
  {
    assert forall rule :: rule in policy.rules <==> rule in multiset(policy.rules);
    assert forall rule :: rule in reordered <==> rule in multiset(reordered);
    SegmentsPassBySet(policy, reordered, Splitter.Segments(command));
  }

  lemma OneMoreRule(rules: seq<Rule>, more: seq<Rule>, rule: Rule, command: string)
    requires forall r :: r in more <==> r in rules || r == rule
    ensures rule.effect == Deny && Denied(rules, command) ==> Denied(more, command)
    ensures rule.effect == Allow && Denied(more, command) ==> Denied(rules, command)
  {
    DeniedIffUnbeatenDeny(rules, command);
    DeniedIffUnbeatenDeny(more, command);
  }

  lemma EffectiveWithOneMore(policy: Policy, rule: Rule, segments: seq<string>)
    ensures
      var before := EffectiveRules(policy, segments);
      var after := EffectiveRules(policy.(rules := policy.rules + [rule]), segments);
      before == after || forall r :: r in after <==> r in before || r == rule
  {
    assert (policy.rules + [rule])[..|policy.rules|] == policy.rules;
  }

  /** Adding a deny rule never lets a denied command pass; adding an allow rule never
      denies a passing one. */
  lemma AddingRulesIsMonotone(policy: Policy, rule: Rule, command: string)
    ensures
      var more := policy.(rules := policy.rules + [rule]);
      && (rule.effect == Deny && Passes(more, command) ==> Passes(policy, command))
      && (rule.effect == Allow && Passes(policy, command) ==> Passes(more, command))
  {
    AddingIsMonotone(policy, rule, Splitter.Segments(command));
  }

  lemma AddingIsMonotone(policy: Policy, rule: Rule, segments: seq<string>)
    ensures
      var more := policy.(rules := policy.rules + [rule]);
      && (rule.effect == Deny && SegmentsPass(more, segments) ==> SegmentsPass(policy, segments))
      && (rule.effect == Allow && SegmentsPass(policy, segments) ==> SegmentsPass(more, segments))
  {
    var more := policy.(rules := policy.rules + [rule]);
    var before, after := EffectiveRules(policy, segments), EffectiveRules(more, segments);
    EffectiveWithOneMore(policy, rule, segments);
    if before != after {
      forall i | 0 <= i < |segments|
        ensures rule.effect == Deny && Denied(before, segments[i]) ==> Denied(after, segments[i])
        ensures rule.effect == Allow && Denied(after, segments[i]) ==> Denied(before, segments[i])
      {
        OneMoreRule(before, after, rule, segments[i]);
      }
    }
  }

  ghost predicate Outranked(rules: seq<Rule>, command: string, deny: Rule) {
    exists a :: a in rules && Applies(a, command) && a.effect == Allow && RankOf(a).Above(RankOf(deny))
  }

  /** Under a catch-all deny and without a completion grant, a passing command has for every
      segment an applicable allow that outranks that deny. */
  lemma AllowlistNeedsAllow(policy: Policy, catchAll: Rule, command: string)
    requires catchAll in policy.rules && catchAll.pattern == None && catchAll.effect == Deny
    requires catchAll.tool == "bash" || catchAll.tool == "*"
    requires Passes(policy, command) && !CompletionGranted(policy, Splitter.Segments(command))
    ensures
      var segments := Splitter.Segments(command);
      forall i :: 0 <= i < |segments| ==> Outranked(EffectiveRules(policy, segments), segments[i], catchAll)
  {
    ShellRulesMembers(policy.rules);
    EveryDenyOutranked(EffectiveRules(policy, Splitter.Segments(command)), catchAll, Splitter.Segments(command));
  }

  lemma EveryDenyOutranked(rules: seq<Rule>, deny: Rule, segments: seq<string>)
    requires deny in rules && deny.pattern == None && deny.effect == Deny && NoneDenied(rules, segments)
    ensures forall i :: 0 <= i < |segments| ==> Outranked(rules, segments[i], deny)
  {
    forall i | 0 <= i < |segments| ensures Outranked(rules, segments[i], deny) {
      DeniedIffUnbeatenDeny(rules, segments[i]);
    }
  }

  // ----- The decision in the rules' own fields

  /** What it takes to decide a segment, rank by rank: a rule with a pattern beats every rule without, and
      among these the shell's own beats the one for all tools; of two patterns the longer literal wins;
      and of equals a deny. */
  lemma TopByFields(rules: seq<Rule>, command: string, rule: Rule)
    ensures IsTop(rules, command, rule) <==>
      && rule in rules && Applies(rule, command)
      && forall other :: other in rules && Applies(other, command) ==>
           && (other.pattern.Some? ==> rule.pattern.Some? && LiteralLength(other.pattern) <= LiteralLength(rule.pattern))
           && (rule.pattern == None && rule.tool == "*" ==> other.tool == "*")
           && (&& other.effect == Deny && LiteralLength(other.pattern) == LiteralLength(rule.pattern)
               && other.pattern.Some? == rule.pattern.Some? && (rule.pattern.Some? || (other.tool == "*") == (rule.tool == "*"))
               ==> rule.effect == Deny)
  {
  }

  /** A segment is denied by the rules with a pattern alone, if any of them speaks about it; else by the shell's
      own rules without one, if there are any; else by the rules for all tools. */
  ghost predicate DeniedByFields(rules: seq<Rule>, command: string) {
    if exists r :: r in rules && Applies(r, command) && r.pattern.Some? then
      exists d :: && d in rules && Applies(d, command) && d.pattern.Some? && d.effect == Deny
                  && forall a :: a in rules && Applies(a, command) && a.pattern.Some? && a.effect == Allow ==>
                       LiteralLength(a.pattern) <= LiteralLength(d.pattern)
    else if exists r :: r in rules && r.pattern == None && r.tool != "*" then
      exists d :: d in rules && d.pattern == None && d.tool != "*" && d.effect == Deny
    else
      exists d :: d in rules && d.pattern == None && d.tool == "*" && d.effect == Deny
  }

  lemma DeniedIsByFields(rules: seq<Rule>, command: string)
    ensures Denied(rules, command) <==> DeniedByFields(rules, command)
  {
    DeniedIffUnbeatenDeny(rules, command);
  }

  /** A rule that a refusal names is a deny that speaks about the first segment that is denied. */
  ghost predicate DenialByFields(rules: seq<Rule>, segments: seq<string>, rule: Rule) {
    && rule in rules && rule.effect == Deny
    && exists i :: 0 <= i < |segments| && Applies(rule, segments[i]) && DeniedByFields(rules, segments[i])
                   && forall k :: 0 <= k < i ==> !DeniedByFields(rules, segments[k])
  }

  lemma DenialIsByFields(rules: seq<Rule>, segments: seq<string>, rule: Rule)
    requires FirstDenial(rules, segments, rule)
    ensures DenialByFields(rules, segments, rule)
  {
    hide DeniedByFields, Applies;
    var i :| 0 <= i < |segments| && IsTop(rules, segments[i], rule) && rule.effect == Deny && NoneDenied(rules, segments[..i]);
    DeniedIsByFields(rules, segments[i]);
    forall k | 0 <= k < i ensures !DeniedByFields(rules, segments[k]) {
      DeniedIsByFields(rules, segments[k]);
      assert segments[..i][k] == segments[k];
    }
  }

  /** A command runs exactly when it is simple enough and either stands alone under a grant to complete, or has no
      segment that the rules deny. */
  ghost predicate PassesByFields(policy: Policy, command: string) {
    var segments := Splitter.Segments(command);
    && (policy.failClosed ==>
          !Splitter.HasForbidden(command) && Splitter.QuoteAfter(command) == Splitter.Unquoted && segments != [])
    && (|| (|segments| == 1 && exists g :: g in policy.grants && g.completion && Granted(g, segments[0]))
        || (forall i :: 0 <= i < |segments| ==> !DeniedByFields(EffectiveRules(policy, segments), segments[i])))
  }

  lemma PassesIsByFields(policy: Policy, command: string)
    ensures Passes(policy, command) <==> PassesByFields(policy, command)
  {
    hide Denied, DeniedByFields, EffectiveRules, Granted;
    var segments := Splitter.Segments(command);
    forall i | 0 <= i < |segments|
      ensures Denied(EffectiveRules(policy, segments), segments[i]) <==> DeniedByFields(EffectiveRules(policy, segments), segments[i])
    {
      DeniedIsByFields(EffectiveRules(policy, segments), segments[i]);
    }
  }

  /** How much of a pattern is literal: stars do not count, nor blanks at its end. */
  lemma {:induction false} LiteralSkipsStar(front: string, back: string)
    ensures LiteralLength(Some(front + "*" + back)) == LiteralLength(Some(front + back))
  {
    StarsDrop(front, "*" + back);
    StarsDrop(front, back);
    assert front + "*" + back == front + ("*" + back);
    assert ("*" + back)[1..] == back;
    assert WithoutStars("*" + back) == [] + WithoutStars(back) == WithoutStars(back);
  }

  lemma {:induction false} StarsDrop(front: string, back: string)
    ensures WithoutStars(front + back) == WithoutStars(front) + WithoutStars(back)
  {
    hide RStrip;
    if front == [] {
      assert front + back == back;
      assert WithoutStars(front) + WithoutStars(back) == WithoutStars(back);
    } else {
      StarsDrop(front[1..], back);
      assert (front + back)[1..] == front[1..] + back && (front + back)[0] == front[0];
      Sequences.Reassociate(if front[0] == '*' then [] else [front[0]], WithoutStars(front[1..]), WithoutStars(back));
    }
  }

  lemma {:induction false} LiteralWithoutStar(pattern: string)
    requires '*' !in pattern
    ensures LiteralLength(Some(pattern)) == |RStrip(pattern)|
  {
    NoStarsToDrop(pattern);
  }

  lemma {:induction false} NoStarsToDrop(pattern: string)
    requires '*' !in pattern
    ensures WithoutStars(pattern) == pattern
  {
    if pattern != [] {
      NoStarsToDrop(pattern[1..]);
    }
  }

  /** A grant's rule speaks about just the commands the grant covers: the command itself, and with any
      arguments unless the grant is exact. */
  lemma GrantSpeaks(grant: Grant, text: string)
    requires '*' !in grant.command
    ensures Applies(GrantRules([grant])[0], text) <==> Granted(grant, text)
    ensures Granted(grant, text) <==> text == grant.command || (!grant.exact && grant.command + " " <= text)
    ensures GrantRules([grant])[0].effect == Allow && GrantRules([grant])[0].tool == "bash"
  {
    var command := grant.command;
    if grant.exact {
      LiteralMeans(command, text);
      NoStarAtEnd(command);
    } else {
      assert command + " *" == (command + " ") + "*";
      LiteralThenStar(command + " ", text);
      assert (command + " *")[..|command + " *"| - 2] == command;
    }
  }

  lemma NoStarAtEnd(command: string)
    requires '*' !in command
    ensures !EndsWith(command, " *")
  {
    if |command| >= 2 {
      assert command[|command| - 2..][1] == command[|command| - 1];
    }
  }

  lemma {:induction false} LiteralMeans(pattern: string, text: string)
    requires '*' !in pattern
    ensures Glob.Means(pattern, text) <==> text == pattern
    decreases |pattern|
  {
    if pattern != [] && text != [] {
      LiteralMeans(pattern[1..], text[1..]);
      assert pattern == [pattern[0]] + pattern[1..] && text == [text[0]] + text[1..];
    }
  }

  lemma {:induction false} LiteralThenStar(front: string, text: string)
    requires '*' !in front
    ensures Glob.Means(front + "*", text) <==> front <= text
    decreases |front|
  {
    if front == [] {
      assert front + "*" == "*" && "*"[1..] == [];
      assert Glob.Means([], text[|text|..]);
    } else {
      assert (front + "*")[1..] == front[1..] + "*" && (front + "*")[0] == front[0];
      if text != [] {
        LiteralThenStar(front[1..], text[1..]);
        assert front == [front[0]] + front[1..] && text == [text[0]] + text[1..];
      }
    }
  }

  /** The rules of a decision: the policy's for the shell and for all tools, and with a grant for a command that
      stands alone, the grants' own. */
  lemma {:induction false} EffectiveAre(policy: Policy, segments: seq<string>, rule: Rule)
    ensures rule in EffectiveRules(policy, segments) <==>
      || (rule in policy.rules && rule.tool in ["bash", "*"])
      || (&& |segments| == 1 && (exists g :: g in policy.grants && Granted(g, segments[0]))
          && exists g :: g in policy.grants && rule in GrantRules([g]))
  {
    ShellRulesMembers(policy.rules);
    var grants := policy.grants;
    if i :| 0 <= i < |grants| && GrantRules(grants)[i] == rule {
      assert grants[i] in grants && GrantRules([grants[i]]) == [rule];
    }
    if g :| g in grants && rule in GrantRules([g]) {
      var i :| 0 <= i < |grants| && grants[i] == g;
      assert GrantRules(grants)[i] == rule;
    }
    if g :| g in grants && |segments| == 1 && Granted(g, segments[0]) {
      var i :| 0 <= i < |grants| && grants[i] == g;
    }
  }
}
