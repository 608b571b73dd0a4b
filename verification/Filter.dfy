/** filter.c: the doubly linked list of rules, and the loops over it. A pointer to a rule is its index among all rules
    that have been made, and -1 is NULL. */
module Filter {
  import opened FilterRules

  const NULL := -1

  datatype Node = Node(rule: Rule, next: int, prev: int)

  function NextIn(ids: seq<int>, i: nat): int {
    if i + 1 < |ids| then ids[i + 1] else NULL
  }

  function PrevIn(ids: seq<int>, i: nat): int {
    if 0 < i <= |ids| then ids[i - 1] else NULL
  }

  predicate LinkedAt(nodes: seq<Node>, ids: seq<int>, i: nat)
    requires i < |ids|
  {
    && 0 <= ids[i] < |nodes|
    && nodes[ids[i]].next == NextIn(ids, i) && nodes[ids[i]].prev == PrevIn(ids, i)
  }

  predicate NoTwice(ids: seq<int>) {
    forall i, j :: 0 <= i < j < |ids| ==> ids[i] != ids[j]
  }

  /** ids are the rules from first to last, linked both ways. */
  ghost predicate Chain(nodes: seq<Node>, ids: seq<int>, first: int, last: int) {
    && NoTwice(ids) && (forall i :: 0 <= i < |ids| ==> LinkedAt(nodes, ids, i))
    && first == (if ids == [] then NULL else ids[0]) && last == PrevIn(ids, |ids|)
  }

  function RemoveAt<T>(s: seq<T>, k: nat): seq<T>
    requires k < |s|
  {
    s[..k] + s[k + 1..]
  }

  /** What the rules on the list are. */
  ghost function RulesOf(nodes: seq<Node>, ids: seq<int>): (rules: seq<Rule>)
    requires forall i :: 0 <= i < |ids| ==> LinkedAt(nodes, ids, i)
    ensures |rules| == |ids|
  {
    seq(|ids|, i requires 0 <= i < |ids| => assert LinkedAt(nodes, ids, i); nodes[ids[i]].rule)
  }

  lemma ChainHas(nodes: seq<Node>, ids: seq<int>, first: int, last: int, k: nat)
    requires Chain(nodes, ids, first, last) && k < |ids|
    ensures 0 <= ids[k] < |nodes| && nodes[ids[k]].next == NextIn(ids, k) && nodes[ids[k]].prev == PrevIn(ids, k)
    ensures RulesOf(nodes, ids)[k] == nodes[ids[k]].rule
    ensures NextIn(ids, k) == NULL || (0 <= NextIn(ids, k) < |nodes| && NextIn(ids, k) != ids[k])
    ensures PrevIn(ids, k) == NULL || (0 <= PrevIn(ids, k) < |nodes| && PrevIn(ids, k) != ids[k])
    ensures ids[k] == first <==> k == 0
    ensures ids[k] == last <==> k == |ids| - 1
  {
    assert LinkedAt(nodes, ids, k);
    if k + 1 < |ids| {
      assert LinkedAt(nodes, ids, k + 1);
    }
    if k > 0 {
      assert LinkedAt(nodes, ids, k - 1);
    }
  }

  /** A new last rule x, behind the rule at `last`. */
  predicate Appended(nodes: seq<Node>, after: seq<Node>, x: int, last: int) {
    && x == |nodes| && |after| == |nodes| + 1 && after[x].next == NULL && after[x].prev == last
    && forall i :: 0 <= i < |nodes| ==> after[i] == if i == last then nodes[i].(next := x) else nodes[i]
  }

  lemma AppendedAt(nodes: seq<Node>, after: seq<Node>, ids: seq<int>, first: int, last: int, x: int, i: nat)
    requires Chain(nodes, ids, first, last) && Appended(nodes, after, x, last) && i < |ids|
    ensures LinkedAt(after, ids + [x], i) && LinkedAt(nodes, ids, i)
    ensures ids[i] < x && after[ids[i]].rule == nodes[ids[i]].rule
  {
    hide NoTwice;
    ChainHas(nodes, ids, first, last, i);
    assert LinkedAt(nodes, ids, i);
  }

  lemma AppendKeeps(nodes: seq<Node>, after: seq<Node>, ids: seq<int>, first: int, last: int, x: int)
    requires Chain(nodes, ids, first, last) && Appended(nodes, after, x, last)
    ensures Chain(after, ids + [x], if first == NULL then x else first, x)
    ensures RulesOf(after, ids + [x]) == RulesOf(nodes, ids) + [after[x].rule]
  {
    hide LinkedAt;
    var more := ids + [x];
    forall i | 0 <= i < |ids|
      ensures LinkedAt(after, more, i) && 0 <= ids[i] < x && RulesOf(nodes, ids)[i] == after[ids[i]].rule
    {
      AppendedAt(nodes, after, ids, first, last, x, i);
      ChainHas(nodes, ids, first, last, i);
    }
    NewestLinked(nodes, after, ids, first, last, x);
    if ids != [] {
      ChainHas(nodes, ids, first, last, 0);
    }
  }

  lemma NewestLinked(nodes: seq<Node>, after: seq<Node>, ids: seq<int>, first: int, last: int, x: int)
    requires Chain(nodes, ids, first, last) && Appended(nodes, after, x, last)
    ensures LinkedAt(after, ids + [x], |ids|)
  {
    hide NoTwice;
  }

  /** Rule x is taken out between its neighbours. */
  predicate Unlinked(nodes: seq<Node>, after: seq<Node>, prev: int, next: int) {
    && |after| == |nodes|
    && forall i :: 0 <= i < |nodes| ==>
         && after[i].rule == nodes[i].rule
         && after[i].next == (if i == prev then next else nodes[i].next)
         && after[i].prev == (if i == next then prev else nodes[i].prev)
  }

  lemma RemoveKeeps(nodes: seq<Node>, after: seq<Node>, ids: seq<int>, first: int, last: int, k: nat)
    requires Chain(nodes, ids, first, last) && k < |ids| && Unlinked(nodes, after, PrevIn(ids, k), NextIn(ids, k))
    ensures Chain(after, RemoveAt(ids, k),
                  if k == 0 then NextIn(ids, k) else first, if k == |ids| - 1 then PrevIn(ids, k) else last)
    ensures RulesOf(after, RemoveAt(ids, k)) == RemoveAt(RulesOf(nodes, ids), k)
  {
    var fewer := RemoveAt(ids, k);
    forall i | 0 <= i < |fewer|
      ensures LinkedAt(after, fewer, i) && after[fewer[i]].rule == nodes[fewer[i]].rule
    {
      assert LinkedAt(nodes, ids, if i < k then i else i + 1);
    }
    var rest := RemoveAt(RulesOf(nodes, ids), k);
    forall i | 0 <= i < |fewer|
      ensures RulesOf(after, fewer)[i] == rest[i]
    {
      assert rest[i] == RulesOf(nodes, ids)[if i < k then i else i + 1];
    }
  }

  /** Only the rule at the k-th place has changed. */
  lemma ScoreKeepsChain(nodes: seq<Node>, ids: seq<int>, first: int, last: int, k: nat, rule: Rule)
    requires Chain(nodes, ids, first, last) && k < |ids|
    ensures 0 <= ids[k] < |nodes|
    ensures var after := nodes[ids[k] := nodes[ids[k]].(rule := rule)];
      Chain(after, ids, first, last) && RulesOf(after, ids) == RulesOf(nodes, ids)[k := rule]
  {
    assert LinkedAt(nodes, ids, k);
    var after := nodes[ids[k] := nodes[ids[k]].(rule := rule)];
    forall i | 0 <= i < |ids|
      ensures LinkedAt(after, ids, i) && after[ids[i]].rule == if i == k then rule else nodes[ids[i]].rule
    {
      assert LinkedAt(nodes, ids, i);
    }
  }

  // ----- removing all rules with a hook

  /** The elements whose rule has another hook. */
  function Without<T>(rules: seq<Rule>, hook: int, s: seq<T>): seq<T>
    requires |s| == |rules|
  {
    if s == [] then [] else (if rules[0].hook == hook then [] else [s[0]]) + Without(rules[1..], hook, s[1..])
  }

  lemma {:induction false} WithoutSnoc<T>(rules: seq<Rule>, hook: int, s: seq<T>, i: nat)
    requires |s| == |rules| && i < |s|
    ensures Without(rules[..i + 1], hook, s[..i + 1])
         == Without(rules[..i], hook, s[..i]) + if rules[i].hook == hook then [] else [s[i]]
    decreases i
  {
    if i == 0 {
      assert s[..1][1..] == [] && s[..0] == [];
    } else {
      WithoutSnoc(rules[1..], hook, s[1..], i - 1);
      assert rules[..i + 1][1..] == rules[1..][..i] && s[..i + 1][1..] == s[1..][..i];
      assert rules[..i][1..] == rules[1..][..i - 1] && s[..i][1..] == s[1..][..i - 1];
    }
  }

  /** In the middle of the loop: of the first i elements those with another hook are left, and all of the rest. */
  ghost predicate Sifted<T>(rules: seq<Rule>, hook: int, was: seq<T>, i: nat, now: seq<T>)
    requires |was| == |rules| && i <= |was|
  {
    now == Without(rules[..i], hook, was[..i]) + was[i..]
  }

  function Left(rules: seq<Rule>, hook: int, i: nat): nat
    requires i <= |rules|
  {
    |Without(rules[..i], hook, rules[..i])|
  }

  lemma {:induction false} SameLeft<T>(rules: seq<Rule>, hook: int, s: seq<T>)
    requires |s| == |rules|
    ensures |Without(rules, hook, s)| == |Without(rules, hook, rules)|
  {
    if s != [] {
      SameLeft(rules[1..], hook, s[1..]);
    }
  }

  lemma SiftedAt<T>(rules: seq<Rule>, hook: int, was: seq<T>, i: nat, now: seq<T>)
    requires |was| == |rules| && i <= |was| && Sifted(rules, hook, was, i, now)
    ensures |now| == Left(rules, hook, i) + |was| - i
    ensures i < |was| ==> now[Left(rules, hook, i)] == was[i]
    ensures i + 1 < |was| ==> now[Left(rules, hook, i) + 1] == was[i + 1]
    ensures i == |was| ==> now == Without(rules, hook, was)
  {
    SameLeft(rules[..i], hook, was[..i]);
    if i == |was| {
      assert rules[..i] == rules && was[..i] == was && was[i..] == [];
    }
  }

  lemma SiftedMore<T>(rules: seq<Rule>, hook: int, was: seq<T>, i: nat, now: seq<T>)
    requires |was| == |rules| && i < |was| && Sifted(rules, hook, was, i, now)
    ensures var k := Left(rules, hook, i);
      && k < |now|
      && (rules[i].hook == hook ==> Sifted(rules, hook, was, i + 1, RemoveAt(now, k)))
      && (rules[i].hook != hook ==> Sifted(rules, hook, was, i + 1, now))
  {
    hide Without;
    SiftedAt(rules, hook, was, i, now);
    SameLeft(rules[..i], hook, was[..i]);
    WithoutSnoc(rules, hook, was, i);
    var done := Without(rules[..i], hook, was[..i]);
    assert was[i..] == [was[i]] + was[i + 1..];
    if rules[i].hook == hook {
      assert RemoveAt(now, |done|) == done + was[i + 1..];
      assert done + [] == done;
    } else {
      assert done + ([was[i]] + was[i + 1..]) == (done + [was[i]]) + was[i + 1..];
    }
  }

  lemma SiftedNone<T>(rules: seq<Rule>, hook: int, was: seq<T>)
    requires |was| == |rules|
    ensures Sifted(rules, hook, was, 0, was)
  {
    assert was[..0] == [] && was[0..] == was;
  }

  // ----- the filter

  class Filter {
    var nodes: seq<Node>
    var rules: int
    var lastRule: int
    ghost var ids: seq<int>               // the list
    ghost var given: seq<seq<Criterion>>  // the criteria of each rule on the list

    ghost predicate Valid()
      reads this
    {
      && Chain(nodes, ids, rules, lastRule) && |given| == |ids|
      && forall i :: 0 <= i < |ids| ==> Stands(Rules()[i], given[i]) && Distinct(given[i])
    }

    ghost predicate Linked()
      reads this
    {
      Chain(nodes, ids, rules, lastRule)
    }

    /** The rules on the list, in order. */
    ghost function Rules(): (r: seq<Rule>)
      requires Linked()
      reads this
      ensures |r| == |ids|
    {
      RulesOf(nodes, ids)
    }

    /** iks_filter_new */
    constructor ()
      ensures Valid() && ids == []
    {
      nodes, rules, lastRule, ids, given := [], NULL, NULL, [], [];
    }

    /** The end of iks_filter_add_rule: the rule is linked in behind the last. */
    method LinkLast(rule: Rule) returns (x: int)
      requires Linked()
      modifies `nodes, `rules, `lastRule, `ids
      ensures Linked() && ids == old(ids) + [x] && Rules() == old(Rules()) + [rule]
    {
      hide Chain, RulesOf;
      ghost var was := nodes;
      x := |nodes|;
      LastIsNode();
      nodes := nodes + [Node(rule, NULL, NULL)];
      if lastRule != NULL {
        nodes := nodes[lastRule := nodes[lastRule].(next := x)];
      }
      nodes := nodes[x := nodes[x].(prev := lastRule)];
      AppendKeeps(was, nodes, ids, rules, lastRule, x);
      if rules == NULL {
        rules := x;
      }
      lastRule := x;
      ids := ids + [x];
    }

    lemma LastIsNode()
      requires Linked()
      ensures lastRule == NULL || 0 <= lastRule < |nodes|
    {
      if ids != [] {
        ChainHas(nodes, ids, rules, lastRule, |ids| - 1);
      }
    }

    /** iks_filter_add_rule: the newest rule is the last, and stands for the criteria given. */
    method AddRule(hook: int, cs: seq<Criterion>) returns (x: int)
      requires Valid() && Distinct(cs)
      modifies this
      ensures Valid() && ids == old(ids) + [x] && given == old(given) + [cs]
      ensures Rules()[..|old(ids)|] == old(Rules()) && Rules()[|old(ids)|].hook == hook
    {
      hide Stands, Chain, RulesOf;
      var rule := Rule(hook, 0, "", "", "", 0, 0, 0);
      NothingStands(rule);
      for i := 0 to |cs|
        invariant Stands(rule, cs[..i]) && rule.hook == hook
        modifies {}
      {
        assert cs[..i] + [cs[i]] == cs[..i + 1];
        StandsMore(rule, cs[..i], cs[i]);
        SameHook(rule, cs[i]);
        rule := WithCriterion(rule, cs[i]);
      }
      assert cs[..|cs|] == cs;
      x := LinkLast(rule);
      given := given + [cs];
    }

    /** iks_filter_remove_rule, on the k-th rule of the list: its neighbours, or the ends of the list, are linked past
        it; the others stay as they are, in order. */
    method RemoveRule(x: int, ghost k: nat)
      requires Valid() && k < |ids| && ids[k] == x
      modifies this
      ensures Valid() && ids == RemoveAt(old(ids), k) && given == RemoveAt(old(given), k)
      ensures Rules() == RemoveAt(old(Rules()), k)
      ensures |nodes| == |old(nodes)| && 0 <= x < |nodes| && nodes[x] == old(nodes)[x]
    {
      hide Stands, Distinct, Chain, RulesOf;
      ghost var was := nodes;
      ChainHas(nodes, ids, rules, lastRule, k);
      if nodes[x].prev != NULL {
        nodes := nodes[nodes[x].prev := nodes[nodes[x].prev].(next := nodes[x].next)];
      }
      if nodes[x].next != NULL {
        nodes := nodes[nodes[x].next := nodes[nodes[x].next].(prev := nodes[x].prev)];
      }
      RemoveKeeps(was, nodes, ids, rules, lastRule, k);
      if rules == x {
        rules := nodes[x].next;
      }
      if lastRule == x {
        lastRule := nodes[x].prev;
      }
      ids := RemoveAt(ids, k);
      given := RemoveAt(given, k);
    }

    /** iks_filter_remove_hook: all rules with this hook go, the others keep their order. The next rule is saved
        before a rule is taken out. */
    method RemoveHook(hook: int)
      requires Valid()
      modifies this
      ensures Valid() && Rules() == Without(old(Rules()), hook, old(Rules()))
      ensures ids == Without(old(Rules()), hook, old(ids)) && given == Without(old(Rules()), hook, old(given))
    {
      hide Stands, Distinct, Chain, RulesOf, Filter.Valid, Without, Left, Sifted;
      FirstRule();
      ghost var i, all := 0, Rules();
      ghost var wasIds, wasGiven := ids, given;
      SiftedNone(all, hook, all);
      SiftedNone(all, hook, ids);
      SiftedNone(all, hook, given);
      var x := rules;
      while x != NULL
        invariant Valid() && Linked() && i <= |all| && x == if i < |all| then wasIds[i] else NULL
        invariant Sifted(all, hook, all, i, Rules())
        invariant Sifted(all, hook, wasIds, i, ids) && Sifted(all, hook, wasGiven, i, given)
        decreases |all| - i
      {
        ghost var k := Left(all, hook, i);
        SiftedAt(all, hook, wasIds, i, ids);
        SiftedAt(all, hook, all, i, Rules());
        SiftedMore(all, hook, wasIds, i, ids);
        SiftedMore(all, hook, wasGiven, i, given);
        SiftedMore(all, hook, all, i, Rules());
        RuleAt(k);
        var tmp := nodes[x].next;
        if nodes[x].rule.hook == hook {
          RemoveRule(x, k);
          FirstRule();
        }
        x := tmp;
        i := i + 1;
      }
      SiftedAt(all, hook, all, i, Rules());
      SiftedAt(all, hook, wasIds, i, ids);
      SiftedAt(all, hook, wasGiven, i, given);
    }

    lemma FirstRule()
      requires Valid()
      ensures Linked() && |given| == |ids| == |Rules()| && rules == if |ids| == 0 then NULL else ids[0]
      ensures forall k :: 0 <= k < |ids| ==> ids[k] != NULL
    {
      forall k | 0 <= k < |ids|
        ensures ids[k] != NULL
      {
        assert LinkedAt(nodes, ids, k);
      }
    }

    /** The k-th rule of the list. */
    lemma RuleAt(k: nat)
      requires Valid() && k < |ids|
      ensures Linked() && |given| == |ids| && 0 <= ids[k] < |nodes| && nodes[ids[k]].rule == Rules()[k]
      ensures nodes[ids[k]].next == (if k + 1 < |ids| then ids[k + 1] else NULL)
      ensures Stands(Rules()[k], given[k]) && Distinct(given[k])
    {
      hide Stands, Distinct;
      ChainHas(nodes, ids, rules, lastRule, k);
    }

    /** Writes the score of the k-th rule. */
    method SetScore(x: int, score: nat, ghost k: nat)
      requires Valid() && k < |ids| && ids[k] == x
      modifies `nodes
      ensures Valid() && Linked() && Rules() == old(Rules())[k := old(Rules())[k].(score := score)]
    {
      hide Stands, Distinct, Chain, RulesOf;
      RuleAt(k);
      ghost var rule := Rules()[k].(score := score);
      ScoreKeepsChain(nodes, ids, rules, lastRule, k, rule);
      ScoreKeepsStanding(Rules()[k], given[k], score);
      nodes := nodes[x := nodes[x].(rule := nodes[x].rule.(score := score))];
    }

    /** The first loop of iks_filter_packet; m is the place of max on the list. */
    method ScoreAll(p: Packet) returns (max: int, ghost m: int)
      requires Valid()
      modifies `nodes
      ensures Valid() && Linked() && SameRules(old(Rules()), Rules()) && ScoresOf(Rules()) == Deserved(given, p)
      ensures Best(Rules(), |ids|, m) && max == NodeAt(ids, m)
    {
      hide Stands, Distinct, Score, Chain, RulesOf, Filter.Valid;
      FirstRule();
      max, m := NULL, NONE;
      var maxScore := 0;
      var rule := rules;
      ghost var i := 0;
      while rule != NULL
        invariant Valid() && Linked() && i <= |ids| == |given| && rule == if i < |ids| then ids[i] else NULL
        invariant SameRules(old(Rules()), Rules()) && Best(Rules(), i, m) && max == NodeAt(ids, m)
        invariant forall k :: 0 <= k < i ==> Rules()[k].score == Score(given[k], p)
        invariant maxScore == if m == NONE then 0 else Rules()[m].score
        decreases |ids| - i
      {
        RuleAt(i);
        var score := ScoreRule(nodes[rule].rule, p, given[i]);
        SetScore(rule, score, i);
        RuleAt(i);
        if score > maxScore {
          max, m := rule, i;
          maxScore := score;
        }
        rule := nodes[rule].next;
        i := i + 1;
      }
      FirstRule();
    }

    /** The loop that looks for the next rule. */
    method NextBest() returns (max: int, ghost m: int)
      requires Valid()
      ensures Linked() && Best(Rules(), |ids|, m) && max == NodeAt(ids, m)
    {
      hide Stands, Distinct, Chain, RulesOf, Filter.Valid;
      FirstRule();
      max, m := NULL, NONE;
      var maxScore := 0;
      var rule := rules;
      ghost var i := 0;
      while rule != NULL
        invariant i <= |ids| && rule == if i < |ids| then ids[i] else NULL
        invariant Best(Rules(), i, m) && max == NodeAt(ids, m) && maxScore == if m == NONE then 0 else Rules()[m].score
        decreases |ids| - i
      {
        RuleAt(i);
        if nodes[rule].rule.score > maxScore {
          max, m := rule, i;
          maxScore := nodes[rule].rule.score;
        }
        rule := nodes[rule].next;
        i := i + 1;
      }
    }

    /** iks_filter_packet with hooks that leave the rules alone; eats(x) is the answer of rule x's hook. The hooks
        run are those of the matching rules with criteria, by id, from, namespace, subtype and type, then by age, up to
        the first that eats the packet; ran holds the rules, at their places on the list. */
    method Dispatch(p: Packet, eats: int -> bool) returns (ran: seq<int>, ghost at: seq<nat>)
      requires Valid()
      modifies `nodes
      ensures Valid() && SameRules(old(Rules()), Rules())
      ensures HooksRun(given, p, EatsOf(ids, eats), at)
      ensures |ran| == |at| && forall k :: 0 <= k < |ran| ==> at[k] < |ids| && ran[k] == ids[at[k]]
    {
      hide Stands, Distinct, Score, Chain, RulesOf, Filter.Valid, InOrder, HooksRun;
      FirstRule();
      ghost var scores := Deserved(given, p);
      ran, at := [], [];
      var max;
      ghost var m;
      max, m := ScoreAll(p);
      NothingRan(scores, ScoresOf(Rules()));
      while max != NULL
        invariant Valid() && Linked() && SameRules(old(Rules()), Rules()) && |scores| == |ids| == |given|
        invariant Best(Rules(), |ids|, m) && max == NodeAt(ids, m)
        invariant Running(scores, ScoresOf(Rules()), at)
        invariant |ran| == |at| && forall k :: 0 <= k < |ran| ==> at[k] < |ids| && ran[k] == ids[at[k]] && !eats(ids[at[k]])
        decreases Positives(ScoresOf(Rules()))
      {
        BestIsReal(m);
        RunsNext(scores, Rules(), at, m);
        ran, at := ran + [max], at + [m];
        if eats(max) {
          LastEats(scores, at, eats);
          GivenDistinct();
          DispatchedIsHooksRun(given, p, EatsOf(ids, eats), at);
          return;
        }
        OneLess(ScoresOf(Rules()), m);
        ghost var before := ScoresOf(Rules());
        SetScore(max, 0, m);
        assert ScoresOf(Rules()) == before[m := 0];
        max, m := NextBest();
      }
      BestIsReal(m);
      NothingLeft(scores, Rules(), at);
      GivenDistinct();
      NoneEats(scores, at, eats);
      DispatchedIsHooksRun(given, p, EatsOf(ids, eats), at);
    }

    lemma BestIsReal(m: int)
      requires Valid() && Linked() && Best(Rules(), |ids|, m)
      ensures NodeAt(ids, m) == NULL <==> m == NONE
      ensures m != NONE ==> NodeAt(ids, m) == ids[m]
    {
      hide Chain, RulesOf, Stands, Distinct;
      FirstRule();
    }

    lemma GivenDistinct()
      requires Valid()
      ensures AllDistinct(given)
    {
      hide Chain, RulesOf, Stands, Distinct;
    }

    lemma LastEats(scores: seq<nat>, at: seq<nat>, eats: int -> bool)
      requires |scores| == |ids| && at != [] && InOrder(scores, at) && forall k :: 0 <= k < |at| ==> at[k] < |ids|
      requires forall k :: 0 <= k < |at| - 1 ==> !eats(ids[at[k]])
      requires eats(ids[at[|at| - 1]])
      requires forall r :: 0 <= r < |scores| && scores[r] > 0 && r !in at ==> Before(scores, at[|at| - 1], r)
      ensures Dispatched(scores, EatsOf(ids, eats), at)
    {
      hide InOrder, Before;
    }

    lemma NoneEats(scores: seq<nat>, at: seq<nat>, eats: int -> bool)
      requires |scores| == |ids| && InOrder(scores, at) && forall k :: 0 <= k < |at| ==> at[k] < |ids| && !eats(ids[at[k]])
      requires forall r :: 0 <= r < |scores| && scores[r] > 0 ==> r in at
      ensures Dispatched(scores, EatsOf(ids, eats), at)
    {
      hide InOrder, Before;
    }
  }

  /** The rule at a place on the list, or NULL for no place. */
  function NodeAt(ids: seq<int>, m: int): int {
    if 0 <= m < |ids| then ids[m] else NULL
  }

  /** The answers of the hooks, by place. */
  function EatsOf(ids: seq<int>, eats: int -> bool): (answers: seq<bool>)
    ensures |answers| == |ids| && forall i :: 0 <= i < |ids| ==> answers[i] == eats(ids[i])
  {
    seq(|ids|, i requires 0 <= i < |ids| => eats(ids[i]))
  }
}
