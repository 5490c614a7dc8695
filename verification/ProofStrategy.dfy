/**
 The recursive strategy builder of the proof conductor.  What the proof engines answer and
 which racer finishes first are inputs: a `World` says what happens at each call, named by
 its path in the recursion.
 */
module ProofStrategy {
  import opened Basics
  import opened PropertyTree

  const UNSAT := 20
  const SAT := 10

  /** A proof instruction: these properties, proved by this engine. */
  datatype Strategy = Strategy(props: seq<string>, config: string, code: int)

  /** An engine that answered, and what. */
  datatype Answer = Answer(config: string, code: int)

  /**
   What happens at one call: the exit code of each engine (none if it was killed), which of the
   answering engines wins the race, whether splitting beats proving as a block when both have
   a result, and which failures splitting records before it is cancelled.
   */
  datatype Choice = Choice(codes: seq<Option<int>>, pick: nat, splitWins: bool, recorded: multiset<string>)

  type World = seq<nat> -> Choice

  /** What a call returns, and what became of the properties it did not prove. */
  datatype Built = Built(
    strategies: seq<Strategy>,
    failures: multiset<string>,       // recorded in the shared list
    unproved: multiset<string>,       // failed, and in no returned strategy
    refuted: multiset<string>)        // got a counterexample alone

  const Nothing := Built([], multiset{}, multiset{}, multiset{})

  function Engines(difficult: bool): seq<string> {
    if difficult then ["rIC3 -e kind --no-preproc"] else ["rIC3", "rIC3 -e kind --no-preproc"]
  }

  // ---------------------------------------------------------------- racing the engines

  /** The engines whose answer decides the query, among the first `n`. */
  function Answers(engines: seq<string>, codes: seq<Option<int>>): (r: seq<Answer>)
    ensures forall a :: a in r ==> a.config in engines && (a.code == SAT || a.code == UNSAT)
  {
    if engines == [] || codes == [] then [] else
    (if codes[0].Some? && (codes[0].value == SAT || codes[0].value == UNSAT)
     then [Answer(engines[0], codes[0].value)] else [])
    + Answers(engines[1..], codes[1..])
  }

  /** The race: some answer if there is one. */
  function Explore(difficult: bool, c: Choice): (r: Option<Answer>)
    ensures r.Some? ==> r.value.config in Engines(difficult) && (r.value.code == SAT || r.value.code == UNSAT)
    ensures r.None? <==> Answers(Engines(difficult), c.codes) == []
  {
    var answers := Answers(Engines(difficult), c.codes);
    if answers == [] then None else Some(answers[c.pick % |answers|])
  }

  // ---------------------------------------------------------------- the builder

  /** The number of nodes, which every recursive call reduces. */
  function Weight(ts: seq<Tree>): nat
    decreases ts
  {
    if ts == [] then 0 else TreeWeight(ts[0]) + Weight(ts[1..])
  }

  function TreeWeight(t: Tree): (n: nat)
    ensures n >= 1
    decreases t
  {
    match t
    case Leaf(_) => 1
    case Node(children) => 1 + Weight(children)
  }

  /** The bare properties of a list, in order. */
  function Rest(ts: seq<Tree>): seq<Tree> {
    if ts == [] then [] else (if ts[0].Leaf? then [ts[0]] else []) + Rest(ts[1..])
  }

  /** The groups of a list, in order. */
  function Children(ts: seq<Tree>): seq<seq<Tree>> {
    if ts == [] then [] else (if ts[0].Node? then [ts[0].children] else []) + Children(ts[1..])
  }

  function Singletons(ts: seq<Tree>): seq<seq<Tree>> {
    if ts == [] then [] else [[ts[0]]] + Singletons(ts[1..])
  }

  /** The parts that splitting works on. */
  function Parts(ts: seq<Tree>): seq<seq<Tree>> {
    if Children(ts) == [] then Singletons(Rest(ts)) else Children(ts) + [Rest(ts)]
  }

  lemma {:induction false} ChildrenAreSmaller(ts: seq<Tree>)
    ensures forall p :: p in Children(ts) ==> Weight(p) < Weight(ts)
    ensures Weight(Rest(ts)) + |Children(ts)| <= Weight(ts)
    decreases |ts|
  {
    if ts != [] {
      ChildrenAreSmaller(ts[1..]);
      if ts[0].Leaf? {
        assert Rest(ts)[0] == ts[0] && Rest(ts)[1..] == Rest(ts[1..]);
      } else {
        assert Rest(ts) == Rest(ts[1..]);
      }
    }
  }

  lemma {:induction false} SingletonsAreSmall(ts: seq<Tree>)
    requires forall t :: t in ts ==> t.Leaf?
    ensures forall p :: p in Singletons(ts) ==> Weight(p) == 1
    decreases |ts|
  {
    if ts != [] {
      SingletonsAreSmall(ts[1..]);
      assert [ts[0]][1..] == [];
    }
  }

  lemma {:induction false} RestIsLeaves(ts: seq<Tree>)
    ensures forall t :: t in Rest(ts) ==> t.Leaf?
    decreases |ts|
  {
    if ts != [] { RestIsLeaves(ts[1..]); }
  }

  lemma {:induction false} WeightAtLeastLength(ts: seq<Tree>)
    ensures Weight(ts) >= |ts|
    decreases |ts|
  {
    if ts != [] { WeightAtLeastLength(ts[1..]); }
  }

  /** Splitting a list of two or more makes progress. */
  lemma PartsAreSmaller(ts: seq<Tree>)
    requires |ts| >= 2
    ensures forall p :: p in Parts(ts) ==> Weight(p) < Weight(ts)
  {
    ChildrenAreSmaller(ts);
    if Children(ts) == [] {
      RestIsLeaves(ts);
      SingletonsAreSmall(Rest(ts));
      WeightAtLeastLength(ts);
    }
  }

  /** A single entry with several leaves is a group. */
  lemma LoneEntryIsGroup(ts: seq<Tree>)
    requires |ts| == 1 && |FindAll(ts)| >= 2
    ensures ts[0].Node? && Weight(ts[0].children) < Weight(ts)
    ensures FindAll(ts[0].children) == FindAll(ts)
  {
    assert ts == [ts[0]] && ts[1..] == [];
  }

  function Single(name: string, a: Option<Answer>): Built {
    if a.None? then Built([], multiset{name}, multiset{name}, multiset{})
    else if a.value.code == UNSAT then
      Built([Strategy([name], a.value.config, a.value.code)], multiset{}, multiset{}, multiset{})
    else Built([], multiset{}, multiset{}, multiset{name})
  }

  function Join(a: Built, b: Built): Built {
    Built(a.strategies + b.strategies, a.failures + b.failures, a.unproved + b.unproved, a.refuted + b.refuted)
  }

  /**
   The race between proving `all` as a block and splitting.  Only a proof lets the block win; the
   cancelled split has then already recorded some of its failures.
   */
  function Settle(all: seq<string>, split: Built, block: Option<Answer>, c: Choice): Built {
    if block.Some? && block.value.code == UNSAT && !c.splitWins then
      Built([Strategy(all, block.value.config, block.value.code)], split.failures * c.recorded, multiset{}, multiset{})
    else split
  }

  function Build(ts: seq<Tree>, difficult: bool, path: seq<nat>, w: World): Built
    decreases Weight(ts), 1, 0
  {
    var all := FindAll(ts);
    if all == [] then Nothing
    else if |all| == 1 then Single(all[0], Explore(difficult, w(path)))
    else if |ts| == 1 then
      LoneEntryIsGroup(ts);
      Build(ts[0].children, difficult, path + [0], w)
    else
      PartsAreSmaller(ts);
      var split := BuildParts(Parts(ts), Weight(ts), difficult, path, 0, w);
      Settle(all, split, Explore(difficult, w(path)), w(path))
  }

  /** The parts of a split, built side by side; `bound` is what they stay below. */
  function BuildParts(parts: seq<seq<Tree>>, bound: nat, difficult: bool, path: seq<nat>, i: nat, w: World): Built
    requires forall p :: p in parts ==> Weight(p) < bound
    decreases bound, 0, |parts|
  {
    if parts == [] then Nothing
    else Join(Build(parts[0], difficult, path + [i], w), BuildParts(parts[1..], bound, difficult, path, i + 1, w))
  }

  // ---------------------------------------------------------------- conservation

  function Props(ss: seq<Strategy>): seq<string> {
    if ss == [] then [] else ss[0].props + Props(ss[1..])
  }

  lemma {:induction false} PropsAppend(a: seq<Strategy>, b: seq<Strategy>)
    ensures Props(a + b) == Props(a) + Props(b)
    decreases |a|
  {
    if a == [] {
      assert a + b == b;
    } else {
      assert (a + b)[1..] == a[1..] + b;
      PropsAppend(a[1..], b);
    }
  }

  /** The leaves of all the parts. */
  function PartLeaves(parts: seq<seq<Tree>>): multiset<string> {
    if parts == [] then multiset{} else multiset(FindAll(parts[0])) + PartLeaves(parts[1..])
  }

  lemma {:induction false} PartLeavesAppend(a: seq<seq<Tree>>, b: seq<seq<Tree>>)
    ensures PartLeaves(a + b) == PartLeaves(a) + PartLeaves(b)
    decreases |a|
  {
    if a == [] {
      assert a + b == b;
    } else {
      assert (a + b)[1..] == a[1..] + b;
      PartLeavesAppend(a[1..], b);
    }
  }

  lemma {:induction false} SingletonLeaves(ts: seq<Tree>)
    ensures PartLeaves(Singletons(ts)) == multiset(FindAll(ts))
    decreases |ts|
  {
    if ts != [] {
      SingletonLeaves(ts[1..]);
      FindAllAppend([ts[0]], ts[1..]);
      assert [ts[0]] + ts[1..] == ts;
      assert Singletons(ts)[1..] == Singletons(ts[1..]);
    }
  }

  lemma FirstLeaf(ts: seq<Tree>)
    requires ts != [] && ts[0].Leaf?
    ensures FindAll(Rest(ts)) == [ts[0].name] + FindAll(Rest(ts[1..]))
    ensures Children(ts) == Children(ts[1..])
  {
    var r := Rest(ts);
    assert r[0] == ts[0] && r[1..] == Rest(ts[1..]);
  }

  lemma FirstGroup(ts: seq<Tree>)
    requires ts != [] && ts[0].Node?
    ensures Rest(ts) == Rest(ts[1..])
    ensures PartLeaves(Children(ts)) == multiset(FindAll(ts[0].children)) + PartLeaves(Children(ts[1..]))
  {
    var c := Children(ts);
    assert c[0] == ts[0].children && c[1..] == Children(ts[1..]);
  }

  lemma {:induction false} ChildrenAndRest(ts: seq<Tree>)
    ensures PartLeaves(Children(ts)) + multiset(FindAll(Rest(ts))) == multiset(FindAll(ts))
    decreases |ts|
  {
    if ts != [] {
      ChildrenAndRest(ts[1..]);
      if ts[0].Leaf? { FirstLeaf(ts); } else { FirstGroup(ts); }
    }
  }

  /** Splitting redistributes the leaves and loses none. */
  lemma PartsKeepLeaves(ts: seq<Tree>)
    ensures PartLeaves(Parts(ts)) == multiset(FindAll(ts))
  {
    ChildrenAndRest(ts);
    if Children(ts) == [] {
      SingletonLeaves(Rest(ts));
    } else {
      PartLeavesAppend(Children(ts), [Rest(ts)]);
      assert [Rest(ts)][1..] == [];
    }
  }

  /** Every strategy is a completed proof by an allowed engine. */
  ghost predicate Proofs(ss: seq<Strategy>, difficult: bool) {
    forall k :: 0 <= k < |ss| ==> ss[k].code == UNSAT && ss[k].config in Engines(difficult) && ss[k].props != []
  }

  /** The books balance: what was proved, what failed and what was refuted are together the leaves. */
  ghost predicate Accounts(r: Built, leaves: multiset<string>, difficult: bool) {
    && multiset(Props(r.strategies)) + r.unproved + r.refuted == leaves
    && r.unproved <= r.failures <= leaves
    && Proofs(r.strategies, difficult)
  }

  lemma JoinAccounts(a: Built, b: Built, x: multiset<string>, y: multiset<string>, difficult: bool)
    requires Accounts(a, x, difficult) && Accounts(b, y, difficult)
    ensures Accounts(Join(a, b), x + y, difficult)
  {
    PropsAppend(a.strategies, b.strategies);
  }

  lemma OneStrategyProps(s: Strategy)
    ensures Props([s]) == s.props
  {
    assert [s][1..] == [];
  }

  /**
   For every tree, every answer of the engines and every outcome of the races, the builder ends
   and each leaf, counted as often as it occurs, is in a returned proof, failed, or was refuted
   on its own.
   */
  lemma {:induction false} BuildAccounts(ts: seq<Tree>, difficult: bool, path: seq<nat>, w: World)
    ensures Accounts(Build(ts, difficult, path, w), multiset(FindAll(ts)), difficult)
    decreases Weight(ts), 1, 0
  {
    var all := FindAll(ts);
    if |all| == 0 {
    } else if |all| == 1 {
      SingleAccounts(all[0], difficult, w(path));
      assert all == [all[0]];
    } else if |ts| == 1 {
      LoneEntryIsGroup(ts);
      BuildAccounts(ts[0].children, difficult, path + [0], w);
    } else {
      PartsAreSmaller(ts);
      PartsKeepLeaves(ts);
      PartsAccount(Parts(ts), Weight(ts), difficult, path, 0, w);
      SettleAccounts(all, BuildParts(Parts(ts), Weight(ts), difficult, path, 0, w), difficult, w(path));
    }
  }

  lemma SettleAccounts(all: seq<string>, split: Built, difficult: bool, c: Choice)
    requires Accounts(split, multiset(all), difficult) && all != []
    ensures Accounts(Settle(all, split, Explore(difficult, c), c), multiset(all), difficult)
  {
    var block := Explore(difficult, c);
    if block.Some? { OneStrategyProps(Strategy(all, block.value.config, block.value.code)); }
  }

  lemma SingleAccounts(name: string, difficult: bool, c: Choice)
    ensures Accounts(Single(name, Explore(difficult, c)), multiset{name}, difficult)
  {
    var a := Explore(difficult, c);
    if a.Some? && a.value.code == UNSAT {
      OneStrategyProps(Strategy([name], a.value.config, a.value.code));
      assert multiset([name]) == multiset{name};
    }
  }

  lemma {:induction false} PartsAccount(parts: seq<seq<Tree>>, bound: nat, difficult: bool, path: seq<nat>, i: nat,
                                        w: World)
    requires forall p :: p in parts ==> Weight(p) < bound
    ensures Accounts(BuildParts(parts, bound, difficult, path, i, w), PartLeaves(parts), difficult)
    decreases bound, 0, |parts|
  {
    if parts != [] {
      BuildAccounts(parts[0], difficult, path + [i], w);
      PartsAccount(parts[1..], bound, difficult, path, i + 1, w);
      JoinAccounts(Build(parts[0], difficult, path + [i], w),
                   BuildParts(parts[1..], bound, difficult, path, i + 1, w),
                   multiset(FindAll(parts[0])), PartLeaves(parts[1..]), difficult);
    }
  }

  // ---------------------------------------------------------------- main results

  lemma {:induction false} PropsContain(ss: seq<Strategy>, k: nat)
    requires k < |ss|
    ensures multiset(ss[k].props) <= multiset(Props(ss))
    ensures forall j :: k < j < |ss| ==> multiset(ss[k].props) + multiset(ss[j].props) <= multiset(Props(ss))
    decreases |ss|
  {
    if k > 0 {
      PropsContain(ss[1..], k - 1);
      forall j | k < j < |ss| ensures multiset(ss[k].props) + multiset(ss[j].props) <= multiset(Props(ss)) {
        assert ss[1..][j - 1] == ss[j] && ss[1..][k - 1] == ss[k];
      }
    } else {
      forall j | 0 < j < |ss| ensures multiset(ss[0].props) + multiset(ss[j].props) <= multiset(Props(ss)) {
        PropsContain(ss[1..], j - 1);
        assert ss[1..][j - 1] == ss[j];
      }
    }
  }

  lemma {:induction false} PropsCome(ss: seq<Strategy>, name: string) returns (k: nat)
    requires name in Props(ss)
    ensures k < |ss| && name in ss[k].props
    decreases |ss|
  {
    if name in ss[0].props { k := 0; } else { k := PropsCome(ss[1..], name); k := k + 1; }
  }

  lemma {:induction false} DistinctCounts(names: seq<string>, name: string)
    requires Distinct(names)
    ensures multiset(names)[name] <= 1
  {
    if names != [] {
      DistinctCounts(names[1..], name);
      assert names == [names[0]] + names[1..];
    }
  }

  /** The lists of any two returned strategies are disjoint when the leaves are distinct. */
  lemma StrategiesDisjoint(ts: seq<Tree>, difficult: bool, path: seq<nat>, w: World, k: nat, j: nat, name: string)
    requires Distinct(FindAll(ts))
    requires var ss := Build(ts, difficult, path, w).strategies; k < j < |ss| && name in ss[k].props
    ensures name !in Build(ts, difficult, path, w).strategies[j].props
  {
    var r := Build(ts, difficult, path, w);
    BuildAccounts(ts, difficult, path, w);
    PropsContain(r.strategies, k);
    var mk, mj := multiset(r.strategies[k].props), multiset(r.strategies[j].props);
    assert mk[name] >= 1 && (mk + mj)[name] <= multiset(FindAll(ts))[name];
    DistinctCounts(FindAll(ts), name);
  }

  /** Every leaf is in some returned proof, was recorded as a failure, or was refuted alone. */
  lemma EveryLeafAnswered(ts: seq<Tree>, difficult: bool, path: seq<nat>, w: World, name: string)
    requires name in FindAll(ts)
    ensures var r := Build(ts, difficult, path, w);
            || (exists k :: 0 <= k < |r.strategies| && name in r.strategies[k].props && r.strategies[k].code == UNSAT)
            || name in r.failures || name in r.refuted
  {
    var r := Build(ts, difficult, path, w);
    BuildAccounts(ts, difficult, path, w);
    assert name in multiset(FindAll(ts));
    if name in Props(r.strategies) { var k := PropsCome(r.strategies, name); }
  }

  /** From names to proofs: grouping by prefixes and then building accounts for every name. */
  lemma NamesToProofs(items: seq<Item>, difficult: bool, w: World)
    requires forall it :: it in items ==> it.chunks != []
    ensures Accounts(Build(Group(items), difficult, [], w), multiset(Names(items)), difficult)
  {
    GroupPermutes(items);
    BuildAccounts(Group(items), difficult, [], w);
  }

  // ---------------------------------------------------------------- what the answers decide

  /** Engine `i` decided the query with `code`. */
  predicate Decides(difficult: bool, c: Choice, i: nat, code: int) {
    i < (if difficult then 1 else 2) && i < |c.codes| && c.codes[i] == Some(code) && (code == 10 || code == 20)
  }

  lemma {:induction false} AnswersCome(engines: seq<string>, codes: seq<Option<int>>, k: nat) returns (i: nat)
    requires k < |Answers(engines, codes)|
    ensures i < |engines| && i < |codes|
    ensures codes[i] == Some(Answers(engines, codes)[k].code) && engines[i] == Answers(engines, codes)[k].config
  {
    var first := |Answers(engines, codes)| - |Answers(engines[1..], codes[1..])|;
    if k < first {
      i := 0;
    } else {
      i := AnswersCome(engines[1..], codes[1..], k - first);
      i := i + 1;
    }
  }

  lemma {:induction false} DecisionsAnswer(engines: seq<string>, codes: seq<Option<int>>, i: nat)
    requires i < |engines| && i < |codes| && (codes[i] == Some(SAT) || codes[i] == Some(UNSAT))
    ensures Answers(engines, codes) != []
  {
    if i > 0 { DecisionsAnswer(engines[1..], codes[1..], i - 1); }
  }

  /**
   The race is won by an engine that decided, and by none exactly when no engine decided.  The
   second engine alone takes part in a difficult one.
   */
  lemma ExploreDecides(difficult: bool, c: Choice) returns (i: nat)
    ensures Explore(difficult, c).None? <==> forall k: nat, code: int :: !Decides(difficult, c, k, code)
    ensures Explore(difficult, c).Some? ==>
              var a := Explore(difficult, c).value;
              Decides(difficult, c, i, a.code) && a.config == Engines(difficult)[i]
              && a.config == if difficult || i == 1 then "rIC3 -e kind --no-preproc" else "rIC3"
  {
    var answers := Answers(Engines(difficult), c.codes);
    i := 0;
    if answers != [] {
      i := AnswersCome(Engines(difficult), c.codes, c.pick % |answers|);
      assert Decides(difficult, c, i, Explore(difficult, c).value.code);
    }
    forall k: nat, code: int | Decides(difficult, c, k, code) ensures answers != [] {
      DecisionsAnswer(Engines(difficult), c.codes, k);
    }
  }

  /**
   A lone property: with no decision it is recorded as a failure; decided as proved it comes back in
   one strategy of the deciding engine and nothing is recorded; decided as refuted nothing comes back
   and nothing is recorded.
   */
  lemma LonePropertyDecided(ts: seq<Tree>, difficult: bool, path: seq<nat>, w: World, name: string) returns (i: nat)
    requires FindAll(ts) == [name]
    ensures var r := Build(ts, difficult, path, w);
            if forall k: nat, code: int :: !Decides(difficult, w(path), k, code) then
              r == Built([], multiset{name}, multiset{name}, multiset{})
            else
              || (Decides(difficult, w(path), i, UNSAT)
                  && r == Built([Strategy([name], Engines(difficult)[i], UNSAT)], multiset{}, multiset{}, multiset{}))
              || (Decides(difficult, w(path), i, SAT) && r == Built([], multiset{}, multiset{}, multiset{name}))
  {
    i := ExploreDecides(difficult, w(path));
  }

  /** Some engine decided, and every one that did decided with `code`. */
  ghost predicate Unanimous(difficult: bool, c: Choice, code: int) {
    && (exists i: nat :: Decides(difficult, c, i, code))
    && (forall i: nat, other: int :: Decides(difficult, c, i, other) ==> other == code)
  }

  lemma UnanimousAnswer(difficult: bool, c: Choice, code: int)
    requires Unanimous(difficult, c, code)
    ensures Explore(difficult, c).Some? && Explore(difficult, c).value.code == code
  {
    var i := ExploreDecides(difficult, c);
  }

  /** Every call from `path` down is decided with `code`. */
  ghost predicate AllDecide(w: World, path: seq<nat>, difficult: bool, code: int) {
    forall q :: path <= q ==> Unanimous(difficult, w(q), code)
  }

  lemma DecideBelow(w: World, path: seq<nat>, difficult: bool, code: int, i: nat)
    requires AllDecide(w, path, difficult, code)
    ensures AllDecide(w, path + [i], difficult, code)
  {
    forall q | path + [i] <= q ensures Unanimous(difficult, w(q), code) { assert path <= q; }
  }

  /** If every engine that answers proves, every leaf is proved and nothing is recorded. */
  lemma {:induction false} ProvedAll(ts: seq<Tree>, difficult: bool, path: seq<nat>, w: World)
    requires AllDecide(w, path, difficult, UNSAT)
    ensures var r := Build(ts, difficult, path, w); r.failures == r.unproved == r.refuted == multiset{}
    decreases Weight(ts), 1, 0
  {
    UnanimousAnswer(difficult, w(path), UNSAT);
    if |FindAll(ts)| >= 2 && |ts| == 1 {
      LoneEntryIsGroup(ts);
      DecideBelow(w, path, difficult, UNSAT, 0);
      ProvedAll(ts[0].children, difficult, path + [0], w);
    } else if |FindAll(ts)| >= 2 {
      PartsAreSmaller(ts);
      ProvedParts(Parts(ts), Weight(ts), difficult, path, 0, w);
    }
  }

  lemma {:induction false} ProvedParts(parts: seq<seq<Tree>>, bound: nat, difficult: bool, path: seq<nat>, i: nat,
                                       w: World)
    requires forall p :: p in parts ==> Weight(p) < bound
    requires AllDecide(w, path, difficult, UNSAT)
    ensures var r := BuildParts(parts, bound, difficult, path, i, w);
            r.failures == r.unproved == r.refuted == multiset{}
    decreases bound, 0, |parts|
  {
    if parts != [] {
      DecideBelow(w, path, difficult, UNSAT, i);
      ProvedAll(parts[0], difficult, path + [i], w);
      ProvedParts(parts[1..], bound, difficult, path, i + 1, w);
    }
  }

  /** If every engine that answers refutes, every leaf is refuted alone, nothing is recorded and nothing comes back. */
  lemma {:induction false} RefutedAll(ts: seq<Tree>, difficult: bool, path: seq<nat>, w: World)
    requires AllDecide(w, path, difficult, SAT)
    ensures var r := Build(ts, difficult, path, w);
            r.strategies == [] && r.failures == r.unproved == multiset{} && r.refuted == multiset(FindAll(ts))
    decreases Weight(ts), 1, 0
  {
    UnanimousAnswer(difficult, w(path), SAT);
    var all := FindAll(ts);
    if |all| == 1 {
      assert all == [all[0]];
    } else if |all| >= 2 && |ts| == 1 {
      LoneEntryIsGroup(ts);
      DecideBelow(w, path, difficult, SAT, 0);
      RefutedAll(ts[0].children, difficult, path + [0], w);
    } else if |all| >= 2 {
      PartsAreSmaller(ts);
      PartsKeepLeaves(ts);
      RefutedParts(Parts(ts), Weight(ts), difficult, path, 0, w);
    }
  }

  lemma {:induction false} RefutedParts(parts: seq<seq<Tree>>, bound: nat, difficult: bool, path: seq<nat>, i: nat,
                                        w: World)
    requires forall p :: p in parts ==> Weight(p) < bound
    requires AllDecide(w, path, difficult, SAT)
    ensures var r := BuildParts(parts, bound, difficult, path, i, w);
            r.strategies == [] && r.failures == r.unproved == multiset{} && r.refuted == PartLeaves(parts)
    decreases bound, 0, |parts|
  {
    if parts != [] {
      DecideBelow(w, path, difficult, SAT, i);
      RefutedAll(parts[0], difficult, path + [i], w);
      RefutedParts(parts[1..], bound, difficult, path, i + 1, w);
    }
  }

  // ---------------------------------------------------------------- what the race decides

  /** Every call from `path` down is decided as proved, and the block beats the split. */
  ghost predicate BlocksProve(w: World, path: seq<nat>, difficult: bool) {
    forall q :: path <= q ==> Unanimous(difficult, w(q), UNSAT) && !w(q).splitWins
  }

  lemma BlocksBelow(w: World, path: seq<nat>, difficult: bool, i: nat)
    requires forall q :: path < q ==> Unanimous(difficult, w(q), UNSAT) && !w(q).splitWins
    ensures BlocksProve(w, path + [i], difficult)
  {
    forall q | path + [i] <= q ensures Unanimous(difficult, w(q), UNSAT) && !w(q).splitWins { assert path < q; }
  }

  /** If the block is proved and beats the split, one strategy proves all the leaves, in order. */
  lemma {:induction false} BlockTakesAll(ts: seq<Tree>, difficult: bool, path: seq<nat>, w: World)
    requires BlocksProve(w, path, difficult)
    ensures PropLists(Build(ts, difficult, path, w).strategies) == if FindAll(ts) == [] then [] else [FindAll(ts)]
    decreases Weight(ts)
  {
    var all := FindAll(ts);
    UnanimousAnswer(difficult, w(path), UNSAT);
    if |all| == 1 {
      assert all == [all[0]];
    } else if |all| >= 2 && |ts| == 1 {
      LoneEntryIsGroup(ts);
      BlocksBelow(w, path, difficult, 0);
      BlockTakesAll(ts[0].children, difficult, path + [0], w);
    }
  }

  function PropLists(ss: seq<Strategy>): (r: seq<seq<string>>)
    ensures |r| == |ss| && forall k :: 0 <= k < |ss| ==> r[k] == ss[k].props
  {
    seq(|ss|, k requires 0 <= k < |ss| => ss[k].props)
  }

  /** The leaves of each group of a list that has any, in order. */
  function GroupBlocks(ts: seq<Tree>): seq<seq<string>> {
    if ts == [] then [] else
    (if ts[0].Node? && FindAll(ts[0].children) != [] then [FindAll(ts[0].children)] else []) + GroupBlocks(ts[1..])
  }

  /** The names of a list that stand in no group. */
  function BareNames(ts: seq<Tree>): seq<string> {
    if ts == [] then [] else (if ts[0].Leaf? then [ts[0].name] else []) + BareNames(ts[1..])
  }

  /** One block per group and one for the bare names; without groups, one block per name. */
  ghost function Blocks(ts: seq<Tree>): seq<seq<string>> {
    if forall t :: t in ts ==> t.Leaf? then seq(|ts|, k requires 0 <= k < |ts| => Leaves(ts[k]))
    else GroupBlocks(ts) + if BareNames(ts) == [] then [] else [BareNames(ts)]
  }

  function LeafLists(parts: seq<seq<Tree>>): seq<seq<string>> {
    if parts == [] then [] else (if FindAll(parts[0]) == [] then [] else [FindAll(parts[0])]) + LeafLists(parts[1..])
  }

  lemma {:induction false} LeafListsAppend(a: seq<seq<Tree>>, b: seq<seq<Tree>>)
    ensures LeafLists(a + b) == LeafLists(a) + LeafLists(b)
  {
    if a == [] {
      assert a + b == b;
    } else {
      assert (a + b)[1..] == a[1..] + b;
      LeafListsAppend(a[1..], b);
    }
  }

  lemma {:induction false} GroupsAreBlocks(ts: seq<Tree>)
    ensures LeafLists(Children(ts)) == GroupBlocks(ts)
    decreases |ts|
  {
    if ts != [] {
      GroupsAreBlocks(ts[1..]);
      if ts[0].Node? {
        LeafListsAppend([ts[0].children], Children(ts[1..]));
        OnePartLists(ts[0].children);
      } else {
        assert Children(ts) == Children(ts[1..]);
      }
    }
  }

  lemma {:induction false} RestIsBare(ts: seq<Tree>)
    ensures FindAll(Rest(ts)) == BareNames(ts)
    decreases |ts|
  {
    if ts != [] {
      RestIsBare(ts[1..]);
      if ts[0].Leaf? { FirstLeaf(ts); } else { FirstGroup(ts); }
    }
  }

  lemma {:induction false} NoGroupsIffLeaves(ts: seq<Tree>)
    ensures Children(ts) == [] <==> forall t :: t in ts ==> t.Leaf?
    decreases |ts|
  {
    if ts != [] {
      NoGroupsIffLeaves(ts[1..]);
      assert forall t :: t in ts <==> t == ts[0] || t in ts[1..];
      if ts[0].Leaf? { assert Children(ts) == Children(ts[1..]); } else { assert Children(ts)[0] == ts[0].children; }
    }
  }

  lemma OnePartLists(part: seq<Tree>)
    ensures LeafLists([part]) == if FindAll(part) == [] then [] else [FindAll(part)]
  {
    assert [part][1..] == [];
  }

  lemma {:induction false} NamesAreBlocks(ts: seq<Tree>)
    requires forall t :: t in ts ==> t.Leaf?
    ensures Rest(ts) == ts
    ensures LeafLists(Singletons(ts)) == seq(|ts|, k requires 0 <= k < |ts| => Leaves(ts[k]))
    decreases |ts|
  {
    if ts != [] {
      NamesAreBlocks(ts[1..]);
      assert ts == [ts[0]] + ts[1..];
      LeafAlone(ts[0].name);
      assert [ts[0]] == [Leaf(ts[0].name)];
    }
  }

  lemma PartsAreBlocks(ts: seq<Tree>)
    ensures LeafLists(Parts(ts)) == Blocks(ts)
  {
    GroupsAreBlocks(ts);
    RestIsBare(ts);
    NoGroupsIffLeaves(ts);
    if Children(ts) == [] {
      NamesAreBlocks(ts);
    } else {
      LeafListsAppend(Children(ts), [Rest(ts)]);
      OnePartLists(Rest(ts));
    }
  }

  lemma PropListsAppend(a: seq<Strategy>, b: seq<Strategy>)
    ensures PropLists(a + b) == PropLists(a) + PropLists(b)
  {}

  lemma {:induction false} PartsTakeAll(parts: seq<seq<Tree>>, bound: nat, difficult: bool, path: seq<nat>, i: nat,
                                        w: World)
    requires forall p :: p in parts ==> Weight(p) < bound
    requires forall q :: path < q ==> Unanimous(difficult, w(q), UNSAT) && !w(q).splitWins
    ensures PropLists(BuildParts(parts, bound, difficult, path, i, w).strategies) == LeafLists(parts)
    decreases |parts|
  {
    if parts != [] {
      BlocksBelow(w, path, difficult, i);
      BlockTakesAll(parts[0], difficult, path + [i], w);
      PartsTakeAll(parts[1..], bound, difficult, path, i + 1, w);
      PropListsAppend(Build(parts[0], difficult, path + [i], w).strategies,
                      BuildParts(parts[1..], bound, difficult, path, i + 1, w).strategies);
    }
  }

  /**
   If the split beats the block here, and below it every block is proved and beats its split, then the
   strategies are one per group, in order, and one for the bare names; without groups, one per name.
   */
  lemma SplitGivesBlocks(ts: seq<Tree>, difficult: bool, path: seq<nat>, w: World)
    requires |ts| >= 2 && |FindAll(ts)| >= 2 && w(path).splitWins
    requires forall q :: path < q ==> Unanimous(difficult, w(q), UNSAT) && !w(q).splitWins
    ensures PropLists(Build(ts, difficult, path, w).strategies) == Blocks(ts)
  {
    PartsAreSmaller(ts);
    PartsAreBlocks(ts);
    PartsTakeAll(Parts(ts), Weight(ts), difficult, path, 0, w);
  }

  // ---------------------------------------------------------------- recorded failures

  /** From `path` down no engine answers. */
  ghost predicate Silent(w: World, path: seq<nat>) {
    forall q :: path <= q ==> w(q).codes == []
  }

  /** Strictly below `path` no engine answers. */
  ghost predicate SilentBelow(w: World, path: seq<nat>) {
    forall q :: path < q ==> w(q).codes == []
  }

  lemma SilentChild(w: World, path: seq<nat>, i: nat)
    requires SilentBelow(w, path)
    ensures Silent(w, path + [i])
  {
    forall q | path + [i] <= q
      ensures w(q).codes == []
    {
      assert path < q;
    }
  }

  lemma {:induction false} SilentFailsAll(ts: seq<Tree>, difficult: bool, path: seq<nat>, w: World)
    requires Silent(w, path)
    ensures var r := Build(ts, difficult, path, w); r.failures == r.unproved == multiset(FindAll(ts))
    decreases Weight(ts), 1, 0
  {
    var all := FindAll(ts);
    if |all| == 1 {
      assert all == [all[0]];
    } else if |all| > 1 && |ts| == 1 {
      LoneEntryIsGroup(ts);
      SilentChild(w, path, 0);
      SilentFailsAll(ts[0].children, difficult, path + [0], w);
    } else if |all| > 1 {
      PartsAreSmaller(ts);
      PartsKeepLeaves(ts);
      SilentParts(Parts(ts), Weight(ts), difficult, path, 0, w);
    }
  }

  lemma {:induction false} SilentParts(parts: seq<seq<Tree>>, bound: nat, difficult: bool, path: seq<nat>, i: nat,
                                       w: World)
    requires forall p :: p in parts ==> Weight(p) < bound
    requires SilentBelow(w, path)
    ensures var r := BuildParts(parts, bound, difficult, path, i, w);
            r.failures == r.unproved == PartLeaves(parts)
    decreases bound, 0, |parts|
  {
    if parts != [] {
      SilentChild(w, path, i);
      SilentFailsAll(parts[0], difficult, path + [i], w);
      SilentParts(parts[1..], bound, difficult, path, i + 1, w);
    }
  }

  /** The block is proved at `root`, after the split below it has failed on everything. */
  function LateProof(root: seq<nat>, all: multiset<string>): World {
    path => if path == root then Choice([Some(UNSAT)], 0, false, all) else Choice([], 0, true, multiset{})
  }

  lemma {:induction false} ProvedYetRecorded(ts: seq<Tree>, difficult: bool, path: seq<nat>) returns (w: World)
    requires |FindAll(ts)| >= 2
    ensures var r := Build(ts, difficult, path, w);
            && r.failures == multiset(FindAll(ts)) && r.unproved == r.refuted == multiset{}
            && |r.strategies| == 1 && r.strategies[0].props == FindAll(ts) && r.strategies[0].code == UNSAT
    decreases Weight(ts)
  {
    var all := FindAll(ts);
    if |ts| == 1 {
      LoneEntryIsGroup(ts);
      w := ProvedYetRecorded(ts[0].children, difficult, path + [0]);
    } else {
      w := LateProof(path, multiset(all));
      PartsAreSmaller(ts);
      PartsKeepLeaves(ts);
      SilentParts(Parts(ts), Weight(ts), difficult, path, 0, w);
      ProofAnswers(difficult, w(path));
    }
  }

  lemma ProofAnswers(difficult: bool, c: Choice)
    requires c.codes == [Some(UNSAT)]
    ensures Explore(difficult, c).Some? && Explore(difficult, c).value.code == UNSAT
  {
    var e := Engines(difficult);
    assert c.codes[1..] == [];
    assert Answers(e, c.codes) == [Answer(e[0], UNSAT)];
  }

  /** Some property is recorded as a failure although a returned strategy proves it. */
  ghost predicate RecordsProved(r: Built) {
    exists name :: name in r.failures && name in Props(r.strategies)
  }

  /**
   The failure list may name properties that a returned strategy proves.  Whatever the engines
   do it names none, and is exactly the unproved properties, only for trees of at most one leaf.
   */
  lemma RecordedIsUnprovedIffOneLeaf(ts: seq<Tree>, difficult: bool, path: seq<nat>)
    ensures (forall w: World :: !RecordsProved(Build(ts, difficult, path, w))) <==> |FindAll(ts)| <= 1
    ensures (forall w: World :: Build(ts, difficult, path, w).failures == Build(ts, difficult, path, w).unproved)
            <==> |FindAll(ts)| <= 1
  {
    if |FindAll(ts)| >= 2 {
      var w := ProvedYetRecorded(ts, difficult, path);
      var r := Build(ts, difficult, path, w);
      OneStrategyProps(r.strategies[0]);
      assert r.strategies == [r.strategies[0]];
      assert FindAll(ts)[0] in r.failures && FindAll(ts)[0] in Props(r.strategies);
      assert RecordsProved(r);
    }
  }
}
