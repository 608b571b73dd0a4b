/** filter.c: rules with scores, and the dispatch of a packet to the hooks of the rules it meets. */
module FilterRules {
  import opened Xml

  datatype Packet = Packet(kind: int, subtype: int, id: Option<string>, ns: Option<string>, from: Option<Sender>)

  datatype Sender = Sender(full: string, partial: Option<string>)

  datatype Criterion =
    | Id(id: string)
    | Kind(kind: int)
    | Subtype(subtype: int)
    | From(from: string)
    | FromPartial(partial: string)
    | Ns(ns: string)

  // IKS_RULE_ID and so on
  const ID := 1
  const KIND := 2
  const SUBTYPE := 4
  const FROM := 8
  const FROM_PARTIAL := 16
  const NS := 32

  /** struct iksrule_struct, its links aside: the rules are in a list. */
  datatype Rule = Rule(hook: int, rules: nat, id: string, from: string, ns: string, kind: int, subtype: int, score: nat)

  function Flag(c: Criterion): nat {
    match c
    case Id(_) => ID
    case Kind(_) => KIND
    case Subtype(_) => SUBTYPE
    case From(_) => FROM
    case FromPartial(_) => FROM_PARTIAL
    case Ns(_) => NS
  }

  /** `rules & flag` */
  predicate Has(rules: nat, flag: nat)
    requires flag > 0
  {
    rules / flag % 2 == 1
  }

  // ----- adding a rule

  /** Criteria that a call may give: no kind twice, and not both kinds of FROM. */
  predicate Distinct(cs: seq<Criterion>) {
    forall i, j :: 0 <= i < j < |cs| ==>
      Flag(cs[i]) != Flag(cs[j]) && !(cs[i].From? && cs[j].FromPartial?) && !(cs[i].FromPartial? && cs[j].From?)
  }

  /** What a packet has to have for a criterion. */
  predicate Meets(c: Criterion, p: Packet) {
    match c
    case Id(id) => p.id == Some(id)
    case Kind(kind) => p.kind == kind
    case Subtype(subtype) => p.subtype == subtype
    case From(from) => p.from.Some? && p.from.value.full == from
    case FromPartial(partial) => p.from.Some? && p.from.value.partial == Some(partial)
    case Ns(ns) => p.ns == Some(ns)
  }

  function Weight(c: Criterion): nat {
    match c
    case Id(_) => 16
    case Kind(_) => 1
    case Subtype(_) => 2
    case From(_) => 8
    case FromPartial(_) => 8
    case Ns(_) => 4
  }

  function Total(cs: seq<Criterion>): nat {
    if cs == [] then 0 else Total(cs[..|cs| - 1]) + Weight(cs[|cs| - 1])
  }

  predicate AllMet(cs: seq<Criterion>, p: Packet) {
    forall i :: 0 <= i < |cs| ==> Meets(cs[i], p)
  }

  /** A criterion goes into its field, and its flag is added. */
  function WithCriterion(r: Rule, c: Criterion): Rule {
    var s := r.(rules := r.rules + Flag(c));
    match c
    case Id(id) => s.(id := id)
    case Kind(kind) => s.(kind := kind)
    case Subtype(subtype) => s.(subtype := subtype)
    case From(from) => s.(from := from)
    case FromPartial(partial) => s.(from := partial)
    case Ns(ns) => s.(ns := ns)
  }

  function Given(cs: seq<Criterion>, flag: nat): nat {
    if cs == [] then 0 else Given(cs[..|cs| - 1], flag) + if Flag(cs[|cs| - 1]) == flag then 1 else 0
  }

  /** The rule that a list of criteria stands for: the flags add up to the criteria given, and each
      criterion has its field. */
  predicate Stands(r: Rule, cs: seq<Criterion>) {
    && r.rules == ID * Given(cs, ID) + KIND * Given(cs, KIND) + SUBTYPE * Given(cs, SUBTYPE)
         + FROM * Given(cs, FROM) + FROM_PARTIAL * Given(cs, FROM_PARTIAL) + NS * Given(cs, NS)
    && forall i :: 0 <= i < |cs| ==> HasField(r, cs[i])
  }

  predicate HasField(r: Rule, c: Criterion) {
    match c
    case Id(id) => r.id == id
    case Kind(kind) => r.kind == kind
    case Subtype(subtype) => r.subtype == subtype
    case From(from) => r.from == from
    case FromPartial(partial) => r.from == partial
    case Ns(ns) => r.ns == ns
  }

  lemma StandsMore(r: Rule, cs: seq<Criterion>, c: Criterion)
    requires Stands(r, cs) && Distinct(cs + [c])
    ensures Stands(WithCriterion(r, c), cs + [c])
  {
    hide Given;
    var more := cs + [c];
    assert more[..|cs|] == cs;
    GivenMore(cs, c);
    forall i | 0 <= i < |cs|
      ensures HasField(WithCriterion(r, c), more[i])
    {
      assert more[i] == cs[i] && HasField(r, cs[i]);
      assert more[|cs|] == c;
    }
  }

  lemma GivenMore(cs: seq<Criterion>, c: Criterion)
    ensures forall flag :: Given(cs + [c], flag) == Given(cs, flag) + if Flag(c) == flag then 1 else 0
  {
    assert (cs + [c])[..|cs|] == cs;
  }

  lemma {:induction false} GivenOnce(cs: seq<Criterion>, flag: nat)
    requires Distinct(cs)
    ensures Given(cs, flag) == if exists i :: 0 <= i < |cs| && Flag(cs[i]) == flag then 1 else 0
  {
    if cs != [] {
      var front, last := cs[..|cs| - 1], cs[|cs| - 1];
      GivenOnce(front, flag);
      if Flag(last) == flag {
        assert forall i :: 0 <= i < |front| ==> Flag(cs[i]) != flag;
        assert Flag(cs[|cs| - 1]) == flag;
      } else if i :| 0 <= i < |cs| && Flag(cs[i]) == flag {
        assert Flag(front[i]) == flag;
      }
    }
  }

  lemma FlagBits(a: nat, b: nat, c: nat, d: nat, e: nat, f: nat)
    requires a <= 1 && b <= 1 && c <= 1 && d <= 1 && e <= 1 && f <= 1
    ensures var r := a + 2 * b + 4 * c + 8 * d + 16 * e + 32 * f;
      && r % 2 == a && r / 2 % 2 == b && r / 4 % 2 == c && r / 8 % 2 == d && r / 16 % 2 == e && r / 32 % 2 == f
  {
    var r := a + 2 * b + 4 * c + 8 * d + 16 * e + 32 * f;
    assert r / 2 == b + 2 * c + 4 * d + 8 * e + 16 * f;
    assert r / 4 == c + 2 * d + 4 * e + 8 * f;
    assert r / 8 == d + 2 * e + 4 * f;
    assert r / 16 == e + 2 * f;
    assert r / 32 == f;
  }

  // ----- scores

  /** How often a criterion of one of the five levels is given: id, from, ns, subtype, type. */
  function Level(cs: seq<Criterion>, level: nat): nat {
    if level == 0 then Given(cs, ID)
    else if level == 1 then Given(cs, FROM) + Given(cs, FROM_PARTIAL)
    else if level == 2 then Given(cs, NS)
    else if level == 3 then Given(cs, SUBTYPE)
    else Given(cs, KIND)
  }

  lemma {:induction false} TotalIs(cs: seq<Criterion>)
    ensures Total(cs) == 16 * Level(cs, 0) + 8 * Level(cs, 1) + 4 * Level(cs, 2) + 2 * Level(cs, 3) + Level(cs, 4)
  {
    if cs != [] {
      TotalIs(cs[..|cs| - 1]);
    }
  }

  lemma LevelsOnce(cs: seq<Criterion>)
    requires Distinct(cs)
    ensures Level(cs, 0) <= 1 && Level(cs, 1) <= 1 && Level(cs, 2) <= 1 && Level(cs, 3) <= 1 && Level(cs, 4) <= 1
  {
    GivenOnce(cs, ID);
    GivenOnce(cs, FROM);
    GivenOnce(cs, FROM_PARTIAL);
    GivenOnce(cs, NS);
    GivenOnce(cs, SUBTYPE);
    GivenOnce(cs, KIND);
    OneFrom(cs);
  }

  lemma {:induction false} NoneGiven(cs: seq<Criterion>, flag: nat)
    requires forall i :: 0 <= i < |cs| ==> Flag(cs[i]) != flag
    ensures Given(cs, flag) == 0
  {
    if cs != [] {
      NoneGiven(cs[..|cs| - 1], flag);
    }
  }

  lemma {:induction false} OneFrom(cs: seq<Criterion>)
    requires Distinct(cs)
    ensures Given(cs, FROM) + Given(cs, FROM_PARTIAL) <= 1
  {
    if cs != [] {
      var front, last := cs[..|cs| - 1], cs[|cs| - 1];
      OneFrom(front);
      if last.From? || last.FromPartial? {
        NoneGiven(front, FROM);
        NoneGiven(front, FROM_PARTIAL);
      }
    }
  }

  /** The first level on which two lists differ decides. */
  predicate Outranks(cs: seq<Criterion>, ds: seq<Criterion>) {
    exists k :: 0 <= k < 5 && Level(cs, k) > Level(ds, k) && forall j :: 0 <= j < k ==> Level(cs, j) == Level(ds, j)
  }

  /** The sum of the weights orders rules lexicographically: id, then from, ns, subtype, type. */
  lemma ScoreIsLexicographic(cs: seq<Criterion>, ds: seq<Criterion>)
    requires Distinct(cs) && Distinct(ds)
    ensures Total(cs) > Total(ds) <==> Outranks(cs, ds)
    ensures Total(cs) == Total(ds) <==> forall k :: 0 <= k < 5 ==> Level(cs, k) == Level(ds, k)
  {
    hide Total, Level, Distinct;
    TotalIs(cs);
    TotalIs(ds);
    LevelsOnce(cs);
    LevelsOnce(ds);
    if Level(cs, 0) != Level(ds, 0) {
    } else if Level(cs, 1) != Level(ds, 1) {
    } else if Level(cs, 2) != Level(ds, 2) {
    } else if Level(cs, 3) != Level(ds, 3) {
    } else if Level(cs, 4) != Level(ds, 4) {
    }
  }

  lemma TotalPositive(cs: seq<Criterion>)
    ensures Total(cs) > 0 <==> cs != []
  {
  }

  /** The score a rule with these criteria gets: none unless the packet meets them all. */
  function Score(cs: seq<Criterion>, p: Packet): nat {
    if AllMet(cs, p) then Total(cs) else 0
  }

  /** Does the field of the rule that belongs to a flag agree with the packet? */
  predicate FieldMet(r: Rule, p: Packet, flag: nat) {
    if flag == KIND then r.kind == p.kind
    else if flag == SUBTYPE then r.subtype == p.subtype
    else if flag == ID then p.id == Some(r.id)
    else if flag == NS then p.ns == Some(r.ns)
    else if flag == FROM then p.from.Some? && p.from.value.full == r.from
    else p.from.Some? && p.from.value.partial == Some(r.from)
  }

  lemma MeetsIsField(r: Rule, c: Criterion, p: Packet)
    requires HasField(r, c)
    ensures Meets(c, p) <==> FieldMet(r, p, Flag(c))
  {
  }

  predicate GivenSays(r: Rule, cs: seq<Criterion>, flag: nat)
    requires flag > 0
  {
    Given(cs, flag) <= 1 && (Has(r.rules, flag) <==> Given(cs, flag) == 1)
  }

  /** Each flag says whether such a criterion is given. */
  lemma HasIsGiven(r: Rule, cs: seq<Criterion>)
    requires Stands(r, cs) && Distinct(cs)
    ensures GivenSays(r, cs, ID) && GivenSays(r, cs, KIND) && GivenSays(r, cs, SUBTYPE)
    ensures GivenSays(r, cs, FROM) && GivenSays(r, cs, FROM_PARTIAL) && GivenSays(r, cs, NS)
  {
    GivenOnce(cs, ID);
    GivenOnce(cs, FROM);
    GivenOnce(cs, FROM_PARTIAL);
    GivenOnce(cs, NS);
    GivenOnce(cs, SUBTYPE);
    GivenOnce(cs, KIND);
    hide Given;
    FlagBits(Given(cs, ID), Given(cs, KIND), Given(cs, SUBTYPE), Given(cs, FROM), Given(cs, FROM_PARTIAL), Given(cs, NS));
  }

  predicate NotMissed(r: Rule, cs: seq<Criterion>, p: Packet, flag: nat) {
    Given(cs, flag) == 1 ==> FieldMet(r, p, flag)
  }

  /** All criteria are met exactly when every flagged field agrees. */
  lemma AllMetIsFields(r: Rule, cs: seq<Criterion>, p: Packet)
    requires Stands(r, cs) && Distinct(cs)
    ensures AllMet(cs, p) <==>
      && NotMissed(r, cs, p, ID) && NotMissed(r, cs, p, KIND) && NotMissed(r, cs, p, SUBTYPE)
      && NotMissed(r, cs, p, FROM) && NotMissed(r, cs, p, FROM_PARTIAL) && NotMissed(r, cs, p, NS)
  {
    hide Meets, FieldMet;
    forall i | 0 <= i < |cs|
      ensures Meets(cs[i], p) <==> FieldMet(r, p, Flag(cs[i]))
      ensures Flag(cs[i]) in {ID, KIND, SUBTYPE, FROM, FROM_PARTIAL, NS} && Given(cs, Flag(cs[i])) == 1
    {
      assert HasField(r, cs[i]);
      MeetsIsField(r, cs[i], p);
      GivenOnce(cs, Flag(cs[i]));
    }
    forall flag | Given(cs, flag) == 1
      ensures exists i :: 0 <= i < |cs| && Flag(cs[i]) == flag
    {
      GivenOnce(cs, flag);
    }
  }

  /** The scoring of one rule in iks_filter_packet. */
  method ScoreRule(r: Rule, p: Packet, ghost cs: seq<Criterion>) returns (score: nat)
    requires Stands(r, cs) && Distinct(cs)
    ensures score == Score(cs, p)
  {
    hide Stands, Distinct, Given, Total, Has, AllMet;
    HasIsGiven(r, cs);
    AllMetIsFields(r, cs, p);
    TotalIs(cs);
    score := 0;
    var fail := false;
    if Has(r.rules, KIND) {
      if r.kind == p.kind { score := score + 1; } else { fail := true; }
    }
    if Has(r.rules, SUBTYPE) {
      if r.subtype == p.subtype { score := score + 2; } else { fail := true; }
    }
    if Has(r.rules, ID) {
      if p.id == Some(r.id) { score := score + 16; } else { fail := true; }
    }
    if Has(r.rules, NS) {
      if p.ns == Some(r.ns) { score := score + 4; } else { fail := true; }
    }
    if Has(r.rules, FROM) {
      if p.from.Some? && p.from.value.full == r.from { score := score + 8; } else { fail := true; }
    }
    if Has(r.rules, FROM_PARTIAL) {
      if p.from.Some? && p.from.value.partial == Some(r.from) { score := score + 8; } else { fail := true; }
    }
    if fail {
      score := 0;
    }
  }

  // ----- the order in which rules are tried

  /** Rule a comes before rule b: it has the higher score, or the same and is older. */
  predicate Before(scores: seq<nat>, a: nat, b: nat)
    requires a < |scores| && b < |scores|
  {
    scores[a] > scores[b] || (scores[a] == scores[b] && a < b)
  }

  predicate InOrder(scores: seq<nat>, ran: seq<nat>) {
    && (forall k :: 0 <= k < |ran| ==> ran[k] < |scores| && scores[ran[k]] > 0)
    && forall j, k :: 0 <= j < k < |ran| ==> Before(scores, ran[j], ran[k])
  }

  /** The hooks that run: rules with a score, each once, in order, up to the first that eats the packet;
      and no such rule that comes before the last one that ran, or any at all if none eats, is left out. */
  predicate Dispatched(scores: seq<nat>, eats: seq<bool>, ran: seq<nat>)
    requires |eats| == |scores|
  {
    && InOrder(scores, ran)
    && (forall k :: 0 <= k < |ran| - 1 ==> !eats[ran[k]])
    && forall r :: 0 <= r < |scores| && scores[r] > 0 && r !in ran ==>
         ran != [] && eats[ran[|ran| - 1]] && Before(scores, ran[|ran| - 1], r)
  }

  /** There is only one such sequence. */
  lemma DispatchedIsUnique(scores: seq<nat>, eats: seq<bool>, a: seq<nat>, b: seq<nat>)
    requires |eats| == |scores| && Dispatched(scores, eats, a) && Dispatched(scores, eats, b)
    ensures a == b
  {
    if |a| <= |b| {
      PrefixSame(scores, eats, a, b, |a|);
      NothingMore(scores, eats, a, b);
    } else {
      PrefixSame(scores, eats, b, a, |b|);
      NothingMore(scores, eats, b, a);
    }
  }

  lemma {:induction false} PrefixSame(scores: seq<nat>, eats: seq<bool>, a: seq<nat>, b: seq<nat>, n: nat)
    requires |eats| == |scores| && Dispatched(scores, eats, a) && Dispatched(scores, eats, b) && n <= |a| && n <= |b|
    ensures a[..n] == b[..n]
    decreases n
  {
    if n > 0 {
      PrefixSame(scores, eats, a, b, n - 1);
      NotSkipped(scores, eats, a, b, n - 1);
      NotSkipped(scores, eats, b, a, n - 1);
      assert a[..n] == a[..n - 1] + [a[n - 1]] && b[..n] == b[..n - 1] + [b[n - 1]];
    }
  }

  /** After the same first rules, b does not go on with a rule that comes behind the one a goes on with. */
  lemma NotSkipped(scores: seq<nat>, eats: seq<bool>, a: seq<nat>, b: seq<nat>, n: nat)
    requires |eats| == |scores| && Dispatched(scores, eats, a) && Dispatched(scores, eats, b) && n < |a| && n < |b|
    requires a[..n] == b[..n]
    ensures a[n] != b[n] ==> !Before(scores, a[n], b[n])
  {
    forall k | 0 <= k < n
      ensures b[k] != a[n]
    {
      assert b[k] == b[..n][k] == a[..n][k] == a[k];
      assert Before(scores, a[k], a[n]);
    }
    if a[n] != b[n] && Before(scores, a[n], b[n]) {
      Absent(scores, b, n, a[n]);
    }
  }

  /** A rule that comes before the n-th and is not among the first n is not in the sequence, and comes
      before its last. */
  lemma Absent(scores: seq<nat>, ran: seq<nat>, n: nat, x: nat)
    requires InOrder(scores, ran) && n < |ran| && x < |scores| && x != ran[n] && Before(scores, x, ran[n])
    requires forall k :: 0 <= k < n ==> ran[k] != x
    ensures x !in ran && !Before(scores, ran[|ran| - 1], x)
  {
    assert n < |ran| - 1 ==> Before(scores, ran[n], ran[|ran| - 1]);
    forall k | n < k < |ran|
      ensures ran[k] != x
    {
      assert Before(scores, ran[n], ran[k]);
    }
  }

  lemma NothingMore(scores: seq<nat>, eats: seq<bool>, a: seq<nat>, b: seq<nat>)
    requires |eats| == |scores| && Dispatched(scores, eats, a) && Dispatched(scores, eats, b)
    requires |a| <= |b| && a == b[..|a|]
    ensures a == b
  {
    if |a| < |b| {
      NewRule(scores, b, |a|);
    }
  }

  lemma NewRule(scores: seq<nat>, ran: seq<nat>, n: nat)
    requires InOrder(scores, ran) && n < |ran|
    ensures ran[n] !in ran[..n]
    ensures n > 0 ==> ran[..n][n - 1] == ran[n - 1]
  {
    forall k | 0 <= k < n
      ensures ran[k] != ran[n]
    {
      assert Before(scores, ran[k], ran[n]);
    }
  }

  // ----- the search for the next rule

  function Positives(scores: seq<nat>): nat {
    if scores == [] then 0 else (if scores[0] > 0 then 1 else 0) + Positives(scores[1..])
  }

  lemma {:induction false} OneLess(scores: seq<nat>, i: nat)
    requires i < |scores| && scores[i] > 0
    ensures Positives(scores[i := 0]) == Positives(scores) - 1
  {
    if i > 0 {
      assert scores[i := 0][1..] == scores[1..][i - 1 := 0];
      OneLess(scores[1..], i - 1);
    } else {
      assert scores[i := 0][1..] == scores[1..];
    }
  }

  /** The scores the rules have now. */
  function ScoresOf(rules: seq<Rule>): (scores: seq<nat>)
    ensures |scores| == |rules| && forall i :: 0 <= i < |rules| ==> scores[i] == rules[i].score
  {
    seq(|rules|, i requires 0 <= i < |rules| => rules[i].score)
  }

  /** The scores the criteria deserve. */
  function Deserved(given: seq<seq<Criterion>>, p: Packet): (scores: seq<nat>)
    ensures |scores| == |given| && forall i :: 0 <= i < |given| ==> scores[i] == Score(given[i], p)
  {
    seq(|given|, i requires 0 <= i < |given| => Score(given[i], p))
  }

  const NONE := -1

  /** max is the first rule with the highest score, if any has one. */
  predicate Best(rules: seq<Rule>, n: nat, max: int)
    requires n <= |rules|
  {
    if max == NONE then forall i :: 0 <= i < n ==> rules[i].score == 0
    else
      && 0 <= max < n && rules[max].score > 0
      && forall i :: 0 <= i < n && i != max ==> rules[max].score > rules[i].score || (rules[max].score == rules[i].score && max < i)
  }

  /** Only scores have changed. */
  predicate SameRules(rules: seq<Rule>, after: seq<Rule>) {
    |rules| == |after| && forall i :: 0 <= i < |rules| ==> after[i] == rules[i].(score := after[i].score)
  }

  lemma ScoreKeepsStanding(r: Rule, cs: seq<Criterion>, score: nat)
    requires Stands(r, cs)
    ensures Stands(r.(score := score), cs)
  {
    hide Given;
    forall i | 0 <= i < |cs|
      ensures HasField(r.(score := score), cs[i])
    {
      assert HasField(r, cs[i]);
    }
  }

  /** While the hooks run: a rule that has run has no score any more, the others have the one they deserve
      and come behind all that have run. */
  predicate Running(scores: seq<nat>, now: seq<nat>, ran: seq<nat>) {
    && |now| == |scores| && InOrder(scores, ran)
    && (forall i :: 0 <= i < |now| ==> now[i] == if i in ran then 0 else scores[i])
    && forall k, r :: 0 <= k < |ran| && 0 <= r < |scores| && now[r] > 0 ==> ran[k] < |scores| && Before(scores, ran[k], r)
  }

  lemma NothingRan(scores: seq<nat>, now: seq<nat>)
    requires now == scores
    ensures Running(scores, now, [])
  {
  }

  /** The best rule left runs. */
  lemma RunsNext(scores: seq<nat>, rules: seq<Rule>, ran: seq<nat>, max: int)
    requires Running(scores, ScoresOf(rules), ran) && max != NONE && Best(rules, |rules|, max)
    ensures 0 <= max < |scores| && max !in ran && InOrder(scores, ran + [max])
    ensures Running(scores, ScoresOf(rules)[max := 0], ran + [max])
    ensures forall r :: 0 <= r < |scores| && scores[r] > 0 && r !in ran + [max] ==> Before(scores, max, r)
  {
    var now := ScoresOf(rules);
    assert now[max] > 0;
    forall r | 0 <= r < |scores| && now[r] > 0 && r != max
      ensures Before(scores, max, r)
    {
      assert rules[r].score == now[r] == scores[r];
    }
    assert forall k :: 0 <= k < |ran| ==> Before(scores, ran[k], max);
  }

  lemma NothingLeft(scores: seq<nat>, rules: seq<Rule>, ran: seq<nat>)
    requires Running(scores, ScoresOf(rules), ran) && Best(rules, |rules|, NONE)
    ensures forall r :: 0 <= r < |scores| && scores[r] > 0 ==> r in ran
  {
    var now := ScoresOf(rules);
    forall r | 0 <= r < |scores| && scores[r] > 0
      ensures r in ran
    {
      assert now[r] == rules[r].score == 0;
    }
  }

  lemma NothingStands(r: Rule)
    requires r.rules == 0
    ensures Stands(r, [])
  {
  }

  lemma SameHook(r: Rule, c: Criterion)
    ensures WithCriterion(r, c).hook == r.hook
  {
  }

  // ----- the same order by criteria

  /** The packet meets the rule: it has criteria, and all are met. */
  predicate Matches(cs: seq<Criterion>, p: Packet) {
    cs != [] && AllMet(cs, p)
  }

  predicate SameLevels(cs: seq<Criterion>, ds: seq<Criterion>) {
    forall k :: 0 <= k < 5 ==> Level(cs, k) == Level(ds, k)
  }

  /** Rule i runs before rule j: it is ahead on id, from, namespace, subtype and type, lexicographically, or it is
      level on all and older. */
  predicate Ahead(given: seq<seq<Criterion>>, i: nat, j: nat)
    requires i < |given| && j < |given|
  {
    Outranks(given[i], given[j]) || (SameLevels(given[i], given[j]) && i < j)
  }

  /** The hooks that run, by criteria: matching rules only, each once, each one ahead of the next, up to the first
      that eats the packet; and a matching rule does not run only when the last one that ran eats and is ahead of it. */
  predicate HooksRun(given: seq<seq<Criterion>>, p: Packet, eats: seq<bool>, ran: seq<nat>)
    requires |eats| == |given|
  {
    && (forall k :: 0 <= k < |ran| ==> ran[k] < |given| && Matches(given[ran[k]], p))
    && (forall j, k :: 0 <= j < k < |ran| ==> Ahead(given, ran[j], ran[k]))
    && (forall k :: 0 <= k < |ran| - 1 ==> !eats[ran[k]])
    && forall r :: 0 <= r < |given| && Matches(given[r], p) && r !in ran ==>
         ran != [] && eats[ran[|ran| - 1]] && Ahead(given, ran[|ran| - 1], r)
  }

  predicate AllDistinct(given: seq<seq<Criterion>>) {
    forall i :: 0 <= i < |given| ==> Distinct(given[i])
  }

  lemma ScoreIsMatch(given: seq<seq<Criterion>>, p: Packet, i: nat)
    requires i < |given|
    ensures Deserved(given, p)[i] > 0 <==> Matches(given[i], p)
  {
    TotalPositive(given[i]);
  }

  lemma BeforeIsAhead(given: seq<seq<Criterion>>, p: Packet, i: nat, j: nat)
    requires AllDistinct(given) && i < |given| && j < |given| && Matches(given[i], p) && Matches(given[j], p)
    ensures Before(Deserved(given, p), i, j) <==> Ahead(given, i, j)
  {
    hide Total, Outranks, Distinct, AllMet;
    ScoreIsLexicographic(given[i], given[j]);
    ScoreIsLexicographic(given[j], given[i]);
  }

  /** The order of the scores is the order of the criteria: the hooks that run are described by either. */
  lemma DispatchedIsHooksRun(given: seq<seq<Criterion>>, p: Packet, eats: seq<bool>, ran: seq<nat>)
    requires AllDistinct(given) && |eats| == |given|
    ensures Dispatched(Deserved(given, p), eats, ran) <==> HooksRun(given, p, eats, ran)
  {
    hide Matches, Ahead, Before, Score, AllDistinct;
    var scores := Deserved(given, p);
    forall i | 0 <= i < |given|
      ensures scores[i] > 0 <==> Matches(given[i], p)
    {
      ScoreIsMatch(given, p, i);
    }
    forall i, j | 0 <= i < |given| && 0 <= j < |given| && Matches(given[i], p) && Matches(given[j], p)
      ensures Before(scores, i, j) <==> Ahead(given, i, j)
    {
      BeforeIsAhead(given, p, i, j);
    }
  }

  /** The two kinds of FROM: one wants the sender with its resource, the other the sender without it. */
  lemma SenderForms()
    ensures var p := Packet(0, 0, None, None, Some(Sender("u@h/r", Some("u@h"))));
      && Matches([From("u@h/r")], p) && !Matches([From("u@h")], p)
      && Matches([FromPartial("u@h")], p) && !Matches([FromPartial("u@h/r")], p)
  {
    var p := Packet(0, 0, None, None, Some(Sender("u@h/r", Some("u@h"))));
    assert |"u@h/r"| != |"u@h"|;
    assert !Meets([From("u@h")][0], p) && !Meets([FromPartial("u@h/r")][0], p);
  }

  /** The other criteria each look at their own part of the packet. */
  lemma CriteriaForms()
    ensures var p := Packet(1, 2, Some("i"), Some("n"), None);
      && Matches([Kind(1)], p) && !Matches([Kind(2)], p) && Matches([Subtype(2)], p) && !Matches([Subtype(1)], p)
      && Matches([Id("i")], p) && !Matches([Id("n")], p) && Matches([Ns("n")], p) && !Matches([Ns("i")], p)
      && !Matches([From("i")], p) && !Matches([FromPartial("i")], p) && !Matches([], p)
  {
    var p := Packet(1, 2, Some("i"), Some("n"), None);
    assert "i"[0] != "n"[0];
    assert !Meets([Kind(2)][0], p) && !Meets([Subtype(1)][0], p) && !Meets([Id("n")][0], p) && !Meets([Ns("i")][0], p);
    assert !Meets([From("i")][0], p) && !Meets([FromPartial("i")][0], p);
  }
}
