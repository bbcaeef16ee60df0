/** The equations a template's Conditions block poses, and their solutions.

    Knowing more never changes an answer (CondMono, ValMono), so the equations of every
    template, cyclic or not, have a least solution, and all solutions agree on conditions that reach no cycle. */
module Fixpoints {
  import opened Templates
  import opened Denotation

  predicate Leq<T(==)>(a: Option<T>, b: Option<T>) {
    a.None? || a == b
  }

  predicate LeqAll<T(==)>(a: seq<Option<T>>, b: seq<Option<T>>) {
    |a| == |b| && forall i :: 0 <= i < |a| ==> Leq(a[i], b[i])
  }

  predicate Below(k: Knowledge, k': Knowledge) {
    forall n :: n in k ==> n in k' && k'[n] == k[n]
  }

  // -- the combinators are monotone ------------------------------------------------

  lemma KleeneMono(decisive: bool, a: seq<Option<bool>>, b: seq<Option<bool>>)
    requires LeqAll(a, b)
    ensures Leq(Kleene(decisive, a), Kleene(decisive, b))
  {
    if Some(decisive) in a {
      var i :| 0 <= i < |a| && a[i] == Some(decisive);
      assert b[i] == Some(decisive);
    } else if None !in a {
      assert forall i :: 0 <= i < |a| ==> a[i] in a;
      assert a == b;
    }
  }

  lemma {:induction false} KeepFieldsSome(keys: seq<string>, rs: seq<Resolved>)
    requires |keys| == |rs|
    ensures KeepFields(keys, rs).Some? <==> None !in rs
  {
    if rs != [] {
      KeepFieldsSome(keys[..|rs| - 1], rs[..|rs| - 1]);
      assert rs == rs[..|rs| - 1] + [rs[|rs| - 1]];
    }
  }

  lemma {:induction false} AllOfSome(rs: seq<Resolved>)
    ensures AllOf(rs).Some? <==> None !in rs
    ensures AllOf(rs).Some? ==> |AllOf(rs).value| == |rs|
  {
    if rs != [] {
      AllOfSome(rs[..|rs| - 1]);
      assert rs == rs[..|rs| - 1] + [rs[|rs| - 1]];
    }
  }

  lemma LeqAllResolved<T>(a: seq<Option<T>>, b: seq<Option<T>>)
    requires LeqAll(a, b) && None !in a
    ensures a == b
  {
    forall i | 0 <= i < |a|
      ensures a[i] == b[i]
    {
      assert a[i] in a;
    }
  }

  lemma KeepMono(a: seq<Resolved>, b: seq<Resolved>)
    requires LeqAll(a, b)
    ensures Leq(Keep(a), Keep(b)) && Leq(AllOf(a), AllOf(b))
  {
    KeepSome(a);
    AllOfSome(a);
    if None !in a {
      LeqAllResolved(a, b);
    }
  }

  lemma KeepFieldsMono(keys: seq<string>, a: seq<Resolved>, b: seq<Resolved>)
    requires LeqAll(a, b) && |keys| == |a|
    ensures Leq(KeepFields(keys, a), KeepFields(keys, b))
  {
    KeepFieldsSome(keys, a);
    if None !in a {
      LeqAllResolved(a, b);
    }
  }

  lemma {:induction false} LookupMono(cursor: Node, keys: seq<string>, d: Resolved, d': Resolved)
    requires Leq(d, d')
    ensures Leq(LookupPath(cursor, keys, d), LookupPath(cursor, keys, d'))
    decreases keys
  {
    if keys != [] && cursor.Map? && FieldOf(cursor.fields, keys[0]).Some? {
      LookupMono(FieldOf(cursor.fields, keys[0]).value, keys[1..], d, d');
    }
  }

  // -- the condition graph -------------------------------------------------------------

  function BoolEdgesOf(env: Env, nodes: seq<Node>): (r: set<string>)
    ensures forall i :: 0 <= i < |nodes| ==> BoolEdges(env, nodes[i]) <= r
    decreases nodes, 0
  {
    if nodes == [] then {} else BoolEdges(env, nodes[0]) + BoolEdgesOf(env, nodes[1..])
  }

  /** The conditions a node in boolean position may ask for. */
  function BoolEdges(env: Env, node: Node): set<string>
    decreases node, 1
  {
    if !Single(node) then {}
    else
      var key, args := node.fields[0].key, node.fields[0].node;
      if key == "Condition" || (key == "Ref" && args.Str? && args.s in env.conditions) then
        (if args.Str? then {args.s} else {})
      else if !args.List? then {}
      else if key == "Fn::Equals" then ValEdgesOf(env, args.items)
      else if key in {"Fn::Not", "Fn::And", "Fn::Or"} then BoolEdgesOf(env, args.items)
      else {}
  }

  function ValEdgesOf(env: Env, nodes: seq<Node>): (r: set<string>)
    ensures forall i :: 0 <= i < |nodes| ==> ValEdges(env, nodes[i]) <= r
    decreases nodes, 0
  {
    if nodes == [] then {} else ValEdges(env, nodes[0]) + ValEdgesOf(env, nodes[1..])
  }

  function FieldEdges(env: Env, fields: seq<Field>): (r: set<string>)
    ensures forall i :: 0 <= i < |fields| ==> ValEdges(env, fields[i].node) <= r
    decreases fields, 0
  {
    if fields == [] then {} else ValEdges(env, fields[0].node) + FieldEdges(env, fields[1..])
  }

  /** The conditions a node in value position may ask for, Fn::If and nested booleans included. */
  function ValEdges(env: Env, node: Node): set<string>
    decreases node, 3
  {
    match node
    case Map(fields) =>
      if |fields| == 1 && IsIntrinsicKey(fields[0].key) then
        var key, args := fields[0].key, fields[0].node;
        if key == "Ref" || NeverResolved(key) then {}
        else if IsBooleanOperator(key) then BoolEdges(env, node)
        else if key == "Fn::Sub" then
          (if IsSubArgs(args) && SubFields(args) != [] then FieldEdges(env, args.items[1].fields) else {})
        else if !args.List? then ValEdges(env, args)
        else if key == "Fn::If" && |args.items| == 3 && args.items[0].Str? then
          {args.items[0].s} + ValEdgesOf(env, args.items)
        else ValEdgesOf(env, args.items)
      else FieldEdges(env, fields)
    case List(items) => ValEdgesOf(env, items)
    case _ => {}
  }

  // -- the interpreter is monotone, and asks for nothing outside the graph ----------------

  /** Everything k knows about the names in `names`, k' knows too. */
  predicate BelowOn(names: set<string>, k: Knowledge, k': Knowledge) {
    forall n :: n in names ==> Leq(Ask(k, n), Ask(k', n))
  }

  lemma {:induction false} CondsMono(env: Env, names: set<string>, k: Knowledge, k': Knowledge, nodes: seq<Node>)
    requires BelowOn(names, k, k') && BoolEdgesOf(env, nodes) <= names
    ensures LeqAll(Conds(env, k, nodes), Conds(env, k', nodes))
    decreases nodes, 0
  {
    if nodes != [] {
      CondMono(env, names, k, k', nodes[0]);
      CondsMono(env, names, k, k', nodes[1..]);
    }
  }

  lemma {:induction false} CondMono(env: Env, names: set<string>, k: Knowledge, k': Knowledge, node: Node)
    requires BelowOn(names, k, k') && BoolEdges(env, node) <= names
    ensures Leq(Cond(env, k, node), Cond(env, k', node))
    decreases node, 1
  {
    if Single(node) && node.fields[0].node.List? {
      var key, args := node.fields[0].key, node.fields[0].node;
      if key == "Fn::Equals" && |args.items| == 2 {
        ValMono(env, names, k, k', args.items[0]);
        ValMono(env, names, k, k', args.items[1]);
      } else if key == "Fn::Not" && |args.items| == 1 {
        CondMono(env, names, k, k', args.items[0]);
      } else if key == "Fn::And" || key == "Fn::Or" {
        CondsMono(env, names, k, k', args.items);
        KleeneMono(key == "Fn::Or", Conds(env, k, args.items), Conds(env, k', args.items));
      }
    }
  }

  lemma {:induction false} ValsMono(env: Env, names: set<string>, k: Knowledge, k': Knowledge, nodes: seq<Node>)
    requires BelowOn(names, k, k') && ValEdgesOf(env, nodes) <= names
    ensures LeqAll(Vals(env, k, nodes), Vals(env, k', nodes))
    decreases nodes, 0
  {
    if nodes != [] {
      ValMono(env, names, k, k', nodes[0]);
      ValsMono(env, names, k, k', nodes[1..]);
    }
  }

  lemma {:induction false} FieldValsMono(env: Env, names: set<string>, k: Knowledge, k': Knowledge, fields: seq<Field>)
    requires BelowOn(names, k, k') && FieldEdges(env, fields) <= names
    ensures LeqAll(FieldVals(env, k, fields), FieldVals(env, k', fields))
    ensures Leq(DefaultIn(env, k, fields), DefaultIn(env, k', fields))
    decreases fields, 0
  {
    if fields != [] {
      ValMono(env, names, k, k', fields[0].node);
      FieldValsMono(env, names, k, k', fields[1..]);
    }
  }

  lemma {:induction false} ValMono(env: Env, names: set<string>, k: Knowledge, k': Knowledge, node: Node)
    requires BelowOn(names, k, k') && ValEdges(env, node) <= names
    ensures Leq(Val(env, k, node), Val(env, k', node))
    decreases node, 3
  {
    match node
    case Map(fields) =>
      if |fields| == 1 && IsIntrinsicKey(fields[0].key) {
        ApplyMono(env, names, k, k', fields[0].key, fields[0].node, node);
      } else {
        FieldValsMono(env, names, k, k', fields);
        KeepFieldsMono(Keys(fields), FieldVals(env, k, fields), FieldVals(env, k', fields));
      }
    case List(items) =>
      ValsMono(env, names, k, k', items);
      KeepMono(Vals(env, k, items), Vals(env, k', items));
    case _ =>
  }

  lemma {:induction false} ApplyMono(env: Env, names: set<string>, k: Knowledge, k': Knowledge,
                                     key: string, args: Node, raw: Node)
    requires Single(raw) && raw.fields[0] == Field(key, args) && IsIntrinsicKey(key)
    requires BelowOn(names, k, k') && ValEdges(env, raw) <= names
    ensures Leq(Apply(env, k, key, args, raw), Apply(env, k', key, args, raw))
    decreases raw, 2
  {
    if key == "Ref" || NeverResolved(key) {
    } else if IsBooleanOperator(key) {
      CondMono(env, names, k, k', raw);
    } else if key == "Fn::Sub" {
      if IsSubArgs(args) && SubFields(args) != [] {
        FieldValsMono(env, names, k, k', args.items[1].fields);
        KeepMono(FieldVals(env, k, args.items[1].fields), FieldVals(env, k', args.items[1].fields));
      }
    } else if key == "Fn::Base64" {
      ValMono(env, names, k, k', args);
    } else if args.List? {
      forall i | 0 <= i < |args.items|
        ensures Leq(Val(env, k, args.items[i]), Val(env, k', args.items[i]))
      {
        ValMono(env, names, k, k', args.items[i]);
      }
      if key == "Fn::FindInMap" && 3 <= |args.items| <= 4 {
        DefaultMono(env, names, k, k', args);
        var a := [Val(env, k, args.items[0]), Val(env, k, args.items[1]), Val(env, k, args.items[2])];
        var b := [Val(env, k', args.items[0]), Val(env, k', args.items[1]), Val(env, k', args.items[2])];
        KeepMono(a, b);
        if AllOf(a).Some? {
          LookupMono(env.mappings, StringifyAll(env.prims, AllOf(a).value),
                     Default(env, k, args), Default(env, k', args));
        }
      }
    }
  }

  lemma {:induction false} DefaultMono(env: Env, names: set<string>, k: Knowledge, k': Knowledge, args: Node)
    requires args.List? && BelowOn(names, k, k') && ValEdgesOf(env, args.items) <= names
    ensures Leq(Default(env, k, args), Default(env, k', args))
    decreases args, 4
  {
    if |args.items| == 4 && args.items[3].Map? {
      var fields := args.items[3].fields;
      if |fields| == 1 && IsIntrinsicKey(fields[0].key) {
        assert fields[1..] == [];
        IntrinsicIsNotDefault(fields[0].key);
        NoDefault(env, k, fields);
        NoDefault(env, k', fields);
      } else {
        assert ValEdges(env, args.items[3]) == FieldEdges(env, fields);
        FieldValsMono(env, names, k, k', fields);
      }
    }
  }

  lemma IntrinsicIsNotDefault(key: string)
    requires IsIntrinsicKey(key)
    ensures key != "DefaultValue"
  {
    if key != "Ref" {
      StartsWithHead(key, "Fn::");
    }
  }

  lemma NoDefault(env: Env, k: Knowledge, fields: seq<Field>)
    requires |fields| == 1 && fields[0].key != "DefaultValue"
    ensures DefaultIn(env, k, fields).None?
  {
    assert fields[1..] == [];
    assert DefaultIn(env, k, fields[1..]).None?;
  }

  lemma BelowCond(env: Env, k: Knowledge, k': Knowledge, node: Node)
    requires Below(k, k')
    ensures Leq(Cond(env, k, node), Cond(env, k', node))
  {
    CondMono(env, BoolEdges(env, node), k, k', node);
  }

  // -- solutions of the equations ------------------------------------------------------

  /** One solution: every condition has exactly the value its own definition gives it. */
  predicate IsFixpoint(env: Env, k: Knowledge) {
    && k.Keys <= env.conditions.Keys
    && forall n :: n in env.conditions ==> Ask(k, n) == Cond(env, k, env.conditions[n])
  }

  function Step(env: Env, k: Knowledge): Knowledge {
    map n | n in env.conditions && Cond(env, k, env.conditions[n]).Some? :: Cond(env, k, env.conditions[n]).value
  }

  function Iterate(env: Env, k: Knowledge): (fix: Knowledge)
    requires Below(k, Step(env, k)) && k.Keys <= env.conditions.Keys
    ensures IsFixpoint(env, fix)
    decreases env.conditions.Keys - k.Keys
  {
    var next := Step(env, k);
    if k.Keys == next.Keys then
      assert k == next;
      k
    else
      StepMono(env, k, next);
      assert k.Keys <= next.Keys;
      Iterate(env, next)
  }

  lemma StepMono(env: Env, k: Knowledge, k': Knowledge)
    requires Below(k, k')
    ensures Below(Step(env, k), Step(env, k'))
  {
    forall n | n in Step(env, k)
      ensures n in Step(env, k') && Step(env, k')[n] == Step(env, k)[n]
    {
      BelowCond(env, k, k', env.conditions[n]);
    }
  }

  lemma {:induction false} IterateBelow(env: Env, k: Knowledge, fix: Knowledge)
    requires Below(k, Step(env, k)) && k.Keys <= env.conditions.Keys
    requires IsFixpoint(env, fix) && Below(k, fix)
    ensures Below(Iterate(env, k), fix)
    decreases env.conditions.Keys - k.Keys
  {
    var next := Step(env, k);
    if k.Keys != next.Keys {
      StepMono(env, k, next);
      StepMono(env, k, fix);
      assert k.Keys <= next.Keys;
      assert Below(Step(env, fix), fix);
      IterateBelow(env, next, fix);
    }
  }

  /** What is knowable about the conditions of a template, whatever its shape. */
  function Least(env: Env): (fix: Knowledge)
    ensures IsFixpoint(env, fix)
  {
    Iterate(env, map[])
  }

  lemma LeastIsLeast(env: Env, fix: Knowledge)
    requires IsFixpoint(env, fix)
    ensures Below(Least(env), fix)
  {
    IterateBelow(env, map[], fix);
  }

  // -- conditions that reach no cycle ------------------------------------------------------

  /** A ranking of some conditions, above everything their definitions may ask for. */
  predicate Ranked(env: Env, rank: map<string, nat>) {
    forall n, m :: n in rank && n in env.conditions && m in BoolEdges(env, env.conditions[n]) && m in env.conditions ==>
      m in rank && rank[m] < rank[n]
  }

  /** None of these names can reach a condition that can reach itself. */
  ghost predicate Grounded(env: Env, names: set<string>) {
    exists rank: map<string, nat> :: Ranked(env, rank) && forall n :: n in names && n in env.conditions ==> n in rank
  }

  ghost predicate Acyclic(env: Env) {
    Grounded(env, env.conditions.Keys)
  }

  lemma GroundedDefinition(env: Env, n: string)
    requires n in env.conditions && Grounded(env, {n})
    ensures Grounded(env, BoolEdges(env, env.conditions[n]))
  {
    var rank :| Ranked(env, rank) && forall m :: m in {n} && m in env.conditions ==> m in rank;
    assert n in {n};
  }

  lemma {:induction false} SolutionsAgreeAt(env: Env, rank: map<string, nat>, a: Knowledge, b: Knowledge, n: string)
    requires Ranked(env, rank) && IsFixpoint(env, a) && IsFixpoint(env, b) && (n in env.conditions ==> n in rank)
    ensures Ask(a, n) == Ask(b, n)
    decreases if n in rank then rank[n] else 0
  {
    if n in env.conditions {
      var edges := BoolEdges(env, env.conditions[n]);
      forall m | m in edges
        ensures Ask(a, m) == Ask(b, m)
      {
        if m in env.conditions {
          SolutionsAgreeAt(env, rank, a, b, m);
        }
      }
      CondMono(env, edges, a, b, env.conditions[n]);
      CondMono(env, edges, b, a, env.conditions[n]);
    }
  }

  /** The equations determine every condition that reaches no cycle, whatever the rest of the
      template is like. */
  lemma GroundedUnique(env: Env, fix: Knowledge, n: string)
    requires Grounded(env, {n}) && IsFixpoint(env, fix)
    ensures Ask(fix, n) == Ask(Least(env), n)
  {
    var rank :| Ranked(env, rank) && forall m :: m in {n} && m in env.conditions ==> m in rank;
    assert n in {n};
    SolutionsAgreeAt(env, rank, fix, Least(env), n);
  }

  /** On an acyclic template they have one solution. */
  lemma AcyclicUnique(env: Env, fix: Knowledge)
    requires Acyclic(env) && IsFixpoint(env, fix)
    ensures fix == Least(env)
  {
    forall n: string
      ensures Ask(fix, n) == Ask(Least(env), n)
    {
      var rank :| Ranked(env, rank) && forall m :: m in env.conditions.Keys && m in env.conditions ==> m in rank;
      SolutionsAgreeAt(env, rank, fix, Least(env), n);
    }
    assert forall n :: n in fix <==> n in Least(env);
  }
}
