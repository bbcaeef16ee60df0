/** The evaluator's runs on conditions built from each other with And, Or and Not alone
    (src/resolver/conditions.py:66-223), as a function of what is cached and in progress.

    It shows what the memo does on cyclic templates: the answer may depend on which condition is
    asked for first (OrderMatters), although every answer that is given is right. Cutting cycles
    without remembering anything would answer exactly what the equations say (UnmemoizedIsExact), so
    it is the caching of answers that were cut off that loses information. */
module BooleanRuns {
  import opened Templates
  import opened Denotation
  import opened Fixpoints

  type Cache = map<string, Option<bool>>

  datatype Run = Run(answer: Option<bool>, cache: Cache)

  /** Literals, references to conditions, and And, Or and Not of these. */
  predicate Plain(node: Node)
    decreases node, 1
  {
    || node.Bool?
    || (&& Single(node)
        && var key, args := node.fields[0].key, node.fields[0].node;
           || (key == "Condition" && args.Str?)
           || (&& args.List? && AllPlain(args.items)
               && ((key == "Fn::Not" && |args.items| == 1) || (key in {"Fn::And", "Fn::Or"} && args.items != []))))
  }

  predicate AllPlain(nodes: seq<Node>)
    decreases nodes, 0
  {
    nodes != [] ==> Plain(nodes[0]) && AllPlain(nodes[1..])
  }

  predicate PlainTemplate(env: Env) {
    forall n :: n in env.conditions ==> Plain(env.conditions[n])
  }

  function Free(env: Env, stack: seq<string>): set<string> {
    env.conditions.Keys - (set n | n in stack)
  }

  /** With `memo`, answers are cached as the evaluator does; without it they are not. */
  function EvalName(env: Env, memo: bool, cache: Cache, stack: seq<string>, name: string): Run
    requires PlainTemplate(env)
    decreases Free(env, stack), Str(name), 0
  {
    if memo && name in cache then Run(cache[name], cache)
    else if name !in env.conditions || name in stack then Run(None, cache)
    else
      assert name in Free(env, stack) && name !in Free(env, stack + [name]);
      var run := EvalNode(env, memo, cache, stack + [name], env.conditions[name]);
      Run(run.answer, if memo then run.cache[name := run.answer] else run.cache)
  }

  function EvalNode(env: Env, memo: bool, cache: Cache, stack: seq<string>, node: Node): Run
    requires PlainTemplate(env) && Plain(node)
    decreases Free(env, stack), node, 1
  {
    if node.Bool? then Run(Some(node.b), cache)
    else
      var key, args := node.fields[0].key, node.fields[0].node;
      if key == "Condition" then EvalName(env, memo, cache, stack, args.s)
      else if key == "Fn::Not" then
        PlainAt(args.items, 0);
        var run := EvalNode(env, memo, cache, stack, args.items[0]);
        Run(Negate(run.answer), run.cache)
      else EvalNodes(env, memo, cache, stack, args.items, key == "Fn::Or", false)
  }

  /** The operands from left to right, up to the first that settles the answer. */
  function EvalNodes(env: Env, memo: bool, cache: Cache, stack: seq<string>, nodes: seq<Node>, decisive: bool,
      pending: bool): Run
    requires PlainTemplate(env) && AllPlain(nodes)
    decreases Free(env, stack), nodes, 0
  {
    if nodes == [] then Run(if pending then None else Some(!decisive), cache)
    else
      var run := EvalNode(env, memo, cache, stack, nodes[0]);
      if run.answer == Some(decisive) then run
      else EvalNodes(env, memo, run.cache, stack, nodes[1..], decisive, pending || run.answer.None?)
  }

  lemma {:induction false} PlainAt(nodes: seq<Node>, i: nat)
    requires AllPlain(nodes) && i < |nodes|
    ensures Plain(nodes[i]) && AllPlain(nodes[i..]) && AllPlain(nodes[i + 1..])
  {
    if i > 0 {
      PlainAt(nodes[1..], i - 1);
      assert nodes[i..] == nodes[1..][i - 1..] && nodes[i + 1..] == nodes[1..][i..];
    }
  }

  // -- two conditions that refer to each other ----------------------------------------------

  function Named(name: string): Node {
    Map([Field("Condition", Str(name))])
  }

  function Operation(key: string, operands: seq<Node>): Node {
    Map([Field(key, List(operands))])
  }

  /** A is true whatever B is, and B is the opposite of A. */
  function Knot(): map<string, Node> {
    map["A" := Operation("Fn::Or", [Named("B"), Bool(true)]),
        "B" := Operation("Fn::Not", [Named("A")])]
  }

  lemma KnotPlain(env: Env)
    requires env.conditions == Knot()
    ensures PlainTemplate(env) && AllPlain([Named("B"), Bool(true)]) && AllPlain([Bool(true)])
  {
    var both := [Named("B"), Bool(true)];
    assert both[1..] == [Bool(true)] && [Bool(true)][1..] == [];
    assert AllPlain([Bool(true)]) && AllPlain(both);
    assert [Named("A")][1..] == [];
    assert AllPlain([Named("A")]);
  }

  /** The equations settle both conditions. */
  lemma KnotLeast(env: Env)
    requires env.conditions == Knot()
    ensures Ask(Least(env), "A") == Some(true) && Ask(Least(env), "B") == Some(false)
  {
    var k := Least(env);
    var both := [Named("B"), Bool(true)];
    assert Conds(env, k, both)[1] == Cond(env, k, both[1]) == Some(true);
    assert Ask(k, "A") == Cond(env, k, Knot()["A"]) == Kleene(true, Conds(env, k, both));
    assert Ask(k, "B") == Cond(env, k, Knot()["B"]) == Negate(Cond(env, k, Named("A")));
  }

  /** A, asked for while B waits for it: it sees B unresolved, and is true all the same. */
  lemma AWithinB(env: Env)
    requires env.conditions == Knot() && PlainTemplate(env)
    ensures EvalName(env, true, map[], ["B"], "A") == Run(Some(true), map["A" := Some(true)])
  {
    var both := [Named("B"), Bool(true)];
    assert both[1..] == [Bool(true)];
    assert EvalNode(env, true, map[], ["B"] + ["A"], both[0]) == EvalName(env, true, map[], ["B"] + ["A"], "B") ==
        Run(None, map[]);
    KnotPlain(env);
    PlainAt(both, 0);
    assert EvalNodes(env, true, map[], ["B"] + ["A"], both[1..], true, true) == Run(Some(true), map[]);
    assert EvalNode(env, true, map[], ["B"] + ["A"], Knot()["A"]) == Run(Some(true), map[]);
  }

  /** B, asked for while A waits for it, is cached as unresolved. */
  lemma BWithinA(env: Env)
    requires env.conditions == Knot() && PlainTemplate(env)
    ensures EvalName(env, true, map[], ["A"], "B") == Run(None, map["B" := None])
  {
    assert EvalNode(env, true, map[], ["A"] + ["B"], Named("A")) == EvalName(env, true, map[], ["A"] + ["B"], "A") ==
        Run(None, map[]);
    assert EvalNode(env, true, map[], ["A"] + ["B"], Knot()["B"]) == Run(None, map[]);
  }

  /** Asked for first, B is false, as the equations say. After A was asked for, B stays unresolved. */
  lemma OrderMatters(env: Env)
    requires env.conditions == Knot()
    ensures PlainTemplate(env) && Ask(Least(env), "B") == Some(false)
    ensures EvalName(env, true, map[], [], "B").answer == Some(false)
    ensures EvalName(env, true, EvalName(env, true, map[], [], "A").cache, [], "B").answer == None
  {
    KnotPlain(env);
    KnotLeast(env);
    AWithinB(env);
    BWithinA(env);
    assert [] + ["A"] == ["A"] && [] + ["B"] == ["B"];
    assert EvalNode(env, true, map[], ["B"], Named("A")) == EvalName(env, true, map[], ["B"], "A");
    assert EvalNode(env, true, map[], ["B"], Knot()["B"]).answer == Some(false);
    var both := [Named("B"), Bool(true)];
    assert both[1..] == [Bool(true)];
    var first := EvalNode(env, true, map[], ["A"], both[0]);
    assert first == EvalName(env, true, map[], ["A"], "B") == Run(None, map["B" := None]);
    assert EvalNodes(env, true, map["B" := None], ["A"], both[1..], true, true) == Run(Some(true), map["B" := None]);
    assert EvalNode(env, true, map[], ["A"], Knot()["A"]).cache == map["B" := None];
  }

  // -- the cut alone loses nothing -----------------------------------------------------------

  /** What a condition means when cycles are cut at the conditions in progress and nothing is
      remembered: one in progress is unknown, any other one has the value of its definition. */
  function Cut(env: Env, stack: set<string>, name: string): Option<bool>
    decreases env.conditions.Keys - stack, 1
  {
    if name !in env.conditions || name in stack then None
    else
      assert name in env.conditions.Keys - stack;
      Cond(env, CutAll(env, stack + {name}), env.conditions[name])
  }

  function CutAll(env: Env, stack: set<string>): Knowledge
    decreases env.conditions.Keys - stack, 2
  {
    map n | n in env.conditions && Cut(env, stack, n).Some? :: Cut(env, stack, n).value
  }

  /** What is known after so many rounds of applying every definition. */
  function Round(env: Env, i: nat): Knowledge {
    if i == 0 then map[] else Step(env, Round(env, i - 1))
  }

  lemma {:induction false} RoundsGrow(env: Env, i: nat)
    ensures Below(Round(env, i), Round(env, i + 1))
  {
    if i > 0 {
      RoundsGrow(env, i - 1);
      StepMono(env, Round(env, i - 1), Round(env, i));
    }
  }

  predicate Growing(env: Env, k: Knowledge) {
    Below(k, Step(env, k)) && k.Keys <= env.conditions.Keys
  }

  /** A round that adds a condition leaves fewer to be found. */
  lemma GrowingNext(env: Env, k: Knowledge)
    requires Growing(env, k) && k.Keys != Step(env, k).Keys
    ensures Growing(env, Step(env, k))
    ensures env.conditions.Keys - Step(env, k).Keys < env.conditions.Keys - k.Keys
  {
    var next := Step(env, k);
    StepMono(env, k, next);
    var x :| x in next.Keys && x !in k.Keys;
    assert x in env.conditions.Keys - k.Keys && x !in env.conditions.Keys - next.Keys;
  }

  lemma RoundNext(env: Env, i: nat)
    ensures Round(env, i + 1) == Step(env, Round(env, i))
  {
  }

  lemma IterateNext(env: Env, k: Knowledge)
    requires Growing(env, k)
    ensures k.Keys == Step(env, k).Keys ==> Iterate(env, k) == k
    ensures k.Keys != Step(env, k).Keys ==> Growing(env, Step(env, k)) && Iterate(env, k) == Iterate(env, Step(env, k))
  {
    if k.Keys != Step(env, k).Keys {
      GrowingNext(env, k);
    }
  }

  lemma {:induction false} IterateIsRound(env: Env, i: nat, k: Knowledge) returns (n: nat)
    requires k == Round(env, i) && Growing(env, k)
    ensures Iterate(env, k) == Round(env, n)
    decreases env.conditions.Keys - k.Keys
  {
    IterateNext(env, k);
    if k.Keys == Step(env, k).Keys {
      n := i;
    } else {
      RoundNext(env, i);
      GrowingNext(env, k);
      n := IterateIsRound(env, i + 1, Step(env, k));
    }
  }

  /** A condition known after i rounds is found although others are in progress, as long as none of
      those is known by then. */
  lemma {:induction false} CutFinds(env: Env, i: nat, stack: set<string>, name: string)
    requires name in Round(env, i) && stack !! Round(env, i).Keys
    ensures Cut(env, stack, name) == Some(Round(env, i)[name])
    decreases i
  {
    RoundsGrow(env, i - 1);
    var before, inner := Round(env, i - 1), stack + {name};
    if name in before {
      CutFinds(env, i - 1, stack, name);
    } else {
      forall n | n in before
        ensures n in CutAll(env, inner) && CutAll(env, inner)[n] == before[n]
      {
        CutFinds(env, i - 1, inner, n);
        RoundKnows(env, i - 1, n);
      }
      BelowCond(env, before, CutAll(env, inner), env.conditions[name]);
    }
  }

  lemma RoundKnows(env: Env, i: nat, name: string)
    requires name in Round(env, i)
    ensures name in env.conditions
  {
  }

  lemma {:induction false} CutIsSound(env: Env, stack: set<string>, name: string)
    ensures Leq(Cut(env, stack, name), Ask(Least(env), name))
    decreases env.conditions.Keys - stack
  {
    if name in env.conditions && name !in stack {
      assert name in env.conditions.Keys - stack;
      var inner := stack + {name};
      forall n | n in CutAll(env, inner)
        ensures n in Least(env) && Least(env)[n] == CutAll(env, inner)[n]
      {
        CutIsSound(env, inner, n);
      }
      BelowCond(env, CutAll(env, inner), Least(env), env.conditions[name]);
    }
  }

  /** On every template, cyclic or not, evaluation with the cut and without the memo finds exactly what
      the least solution knows, so only the memo makes answers depend on the order. */
  lemma CutIsExact(env: Env, name: string)
    ensures Cut(env, {}, name) == Ask(Least(env), name)
  {
    CutIsSound(env, {}, name);
    var n := IterateIsRound(env, 0, map[]);
    assert Least(env) == Round(env, n);
    if name in Least(env) {
      CutFinds(env, n, {}, name);
    }
  }

  function InStack(stack: seq<string>): set<string> {
    set n | n in stack
  }

  lemma {:induction false} UnmemoizedName(env: Env, stack: seq<string>, name: string)
    requires PlainTemplate(env)
    ensures EvalName(env, false, map[], stack, name) == Run(Cut(env, InStack(stack), name), map[])
    decreases Free(env, stack), Str(name), 0
  {
    if name in env.conditions && name !in stack {
      assert name in Free(env, stack) && name !in Free(env, stack + [name]);
      assert InStack(stack + [name]) == InStack(stack) + {name};
      UnmemoizedNode(env, stack + [name], env.conditions[name]);
    }
  }

  lemma {:induction false} UnmemoizedNode(env: Env, stack: seq<string>, node: Node)
    requires PlainTemplate(env) && Plain(node)
    ensures EvalNode(env, false, map[], stack, node) == Run(Cond(env, CutAll(env, InStack(stack)), node), map[])
    decreases Free(env, stack), node, 1
  {
    if !node.Bool? {
      var key, args := node.fields[0].key, node.fields[0].node;
      if key == "Condition" {
        UnmemoizedName(env, stack, args.s);
      } else if key == "Fn::Not" {
        PlainAt(args.items, 0);
        UnmemoizedNode(env, stack, args.items[0]);
      } else {
        UnmemoizedNodes(env, stack, args.items, key == "Fn::Or", false);
      }
    }
  }

  lemma {:induction false} UnmemoizedNodes(env: Env, stack: seq<string>, nodes: seq<Node>, decisive: bool,
      pending: bool)
    requires PlainTemplate(env) && AllPlain(nodes)
    ensures var answers := Conds(env, CutAll(env, InStack(stack)), nodes);
            EvalNodes(env, false, map[], stack, nodes, decisive, pending) ==
            Run(Kleene(decisive, if pending then [None] + answers else answers), map[])
    decreases Free(env, stack), nodes, 0
  {
    var k := CutAll(env, InStack(stack));
    if nodes != [] {
      UnmemoizedNode(env, stack, nodes[0]);
      var head, tail := Cond(env, k, nodes[0]), Conds(env, k, nodes[1..]);
      assert Conds(env, k, nodes) == [head] + tail;
      if head != Some(decisive) {
        UnmemoizedNodes(env, stack, nodes[1..], decisive, pending || head.None?);
        KleeneSkips(decisive, pending, head, tail);
      } else {
        assert head in [head] + tail && head in [None] + ([head] + tail);
      }
    }
  }

  lemma KleeneSkips(decisive: bool, pending: bool, head: Option<bool>, tail: seq<Option<bool>>)
    requires head != Some(decisive)
    ensures var all := [head] + tail;
            Kleene(decisive, if pending || head.None? then [None] + tail else tail) ==
            Kleene(decisive, if pending then [None] + all else all)
  {
    var all := [head] + tail;
    assert forall x :: x in all <==> x == head || x in tail;
    assert forall x :: x in [None] + tail <==> x == None || x in tail;
    assert forall x :: x in [None] + all <==> x == None || x in all;
  }

  /** Without its memo the evaluator would answer what the equations say, on every such template. */
  lemma UnmemoizedIsExact(env: Env, name: string)
    requires PlainTemplate(env)
    ensures EvalName(env, false, map[], [], name).answer == Ask(Least(env), name)
  {
    UnmemoizedName(env, [], name);
    assert InStack([]) == {};
    CutIsExact(env, name);
  }
}
