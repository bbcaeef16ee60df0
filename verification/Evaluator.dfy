/** The evaluator as it runs: conditions are memoised, the conditions being evaluated are kept
    on a stack so that cycles are cut, and values and conditions call each other
    (src/resolver/conditions.py and resolver.py, which share this state).

    Whatever was evaluated before and in whatever order, a resolved answer is the one every
    solution of the template's equations gives; where no cycle can be reached, unresolved answers
    are exact too. Termination on every template: each nested `Evaluate` has one condition more in
    progress, and everything else descends into the node. */
module Evaluator {
  import opened Templates
  import opened Denotation
  import opened Fixpoints
  import opened BooleanRuns
  import opened PropertyWalk
  import Branches

  /** Stack discipline: each condition in progress was asked for by the one below it. */
  ghost predicate Chain(env: Env, stack: seq<string>) {
    && (forall i :: 0 <= i < |stack| ==> stack[i] in env.conditions)
    && (forall i :: 0 < i < |stack| ==> stack[i] in BoolEdges(env, env.conditions[stack[i - 1]]))
  }

  /** What the condition on top of the stack may ask for; at top level, anything. */
  ghost predicate MayAsk(env: Env, stack: seq<string>, names: set<string>)
    requires Chain(env, stack)
  {
    stack != [] ==> names <= BoolEdges(env, env.conditions[stack[|stack| - 1]])
  }

  lemma {:induction false} ChainDescends(env: Env, rank: map<string, nat>, stack: seq<string>, i: nat)
    requires Ranked(env, rank) && Chain(env, stack) && i < |stack| && stack[i] in rank
    ensures stack[|stack| - 1] in rank && rank[stack[|stack| - 1]] <= rank[stack[i]]
    decreases |stack| - i
  {
    if i < |stack| - 1 {
      assert stack[i + 1] in BoolEdges(env, env.conditions[stack[i]]);
      ChainDescends(env, rank, stack, i + 1);
    }
  }

  /** A condition that reaches no cycle is never already in progress when it is asked for. */
  lemma NoCycle(env: Env, stack: seq<string>, name: string)
    requires Grounded(env, {name}) && Chain(env, stack) && MayAsk(env, stack, {name})
    ensures name !in stack
  {
    if name in stack {
      var rank :| Ranked(env, rank) && forall m :: m in {name} && m in env.conditions ==> m in rank;
      assert name in {name};
      var i :| 0 <= i < |stack| && stack[i] == name;
      ChainDescends(env, rank, stack, i);
    }
  }

  /** An answer against its meaning: never a wrong value, and exact when none of the names it may
      have asked for reaches a cycle. */
  ghost predicate Good<T>(env: Env, names: set<string>, r: Option<T>, meaning: Option<T>) {
    Leq(r, meaning) && (Grounded(env, names) ==> r == meaning)
  }

  ghost predicate Extends(before: map<string, Option<bool>>, after: map<string, Option<bool>>) {
    forall n :: n in before ==> n in after && after[n] == before[n]
  }

  class ConditionEvaluator {
    const env: Env
    var cache: map<string, Option<bool>>
    var inProgress: seq<string>

    ghost predicate Valid()
      reads this
    {
      && (forall n :: n in cache ==> n in env.conditions && Good(env, {n}, cache[n], Ask(Least(env), n)))
      && Chain(env, inProgress)
      && (forall n :: n in inProgress ==> n !in cache)
    }

    /** What every call keeps: the stack is restored, the cache only grows. */
    ghost predicate Kept(oldCache: map<string, Option<bool>>, oldStack: seq<string>)
      reads this
    {
      Valid() && inProgress == oldStack && Extends(oldCache, cache)
    }

    ghost function Free(): set<string>
      reads this
    {
      env.conditions.Keys - (set n | n in inProgress)
    }

    constructor (env: Env)
      ensures Valid() && this.env == env && cache == map[] && inProgress == []
    {
      this.env := env;
      cache, inProgress := map[], [];
    }

    method Evaluate(name: string) returns (r: Option<bool>)
      requires Valid() && MayAsk(env, inProgress, {name})
      modifies this
      ensures Kept(old(cache), old(inProgress))
      ensures Good(env, {name}, r, Ask(Least(env), name))
      ensures name in env.conditions && name !in inProgress ==> name in cache && cache[name] == r
      ensures name in old(cache) ==> cache == old(cache)
      ensures PlainTemplate(env) ==> Run(r, cache) == EvalName(env, true, old(cache), inProgress, name)
      decreases Free(), Str(name), 0
    {
      if name in cache {
        return cache[name];
      }
      if name !in env.conditions {
        return None;
      }
      if name in inProgress {
        if Grounded(env, {name}) {
          NoCycle(env, inProgress, name);
        }
        return None;
      }
      ghost var stack := inProgress;
      inProgress := inProgress + [name];
      assert forall n :: n in inProgress <==> n in stack || n == name;
      assert name in old(Free()) && name !in Free();
      r := EvaluateExpression(env.conditions[name]);
      inProgress := inProgress[..|inProgress| - 1];
      assert inProgress == stack;
      if Grounded(env, {name}) {
        GroundedDefinition(env, name);
      }
      cache := cache[name := r];
    }

    method EvaluateExpression(node: Node) returns (r: Option<bool>)
      requires Valid() && MayAsk(env, inProgress, BoolEdges(env, node))
      modifies this
      ensures Kept(old(cache), old(inProgress))
      ensures Good(env, BoolEdges(env, node), r, Cond(env, Least(env), node))
      ensures PlainTemplate(env) && Plain(node) ==> Run(r, cache) == EvalNode(env, true, old(cache), inProgress, node)
      decreases Free(), node, 1
    {
      if node.Bool? {
        return Some(node.b);
      }
      if !Single(node) {
        return None;
      }
      var key, args := node.fields[0].key, node.fields[0].node;
      if key == "Condition" {
        if !args.Str? {
          return None;
        }
        r := Evaluate(args.s);
      } else if key == "Ref" && args.Str? && args.s in env.conditions {
        r := Evaluate(args.s);
      } else if key == "Fn::Equals" && args.List? && |args.items| == 2 {
        var left := ResolveArg(args.items[0]);
        var right := ResolveArg(args.items[1]);
        r := EqualValues(env, left, right);
      } else if key == "Fn::Not" && args.List? && |args.items| == 1 {
        if Plain(node) {
          PlainAt(args.items, 0);
        }
        var inner := EvaluateExpression(args.items[0]);
        r := Negate(inner);
      } else if (key == "Fn::And" || key == "Fn::Or") && args.List? && args.items != [] {
        r := EvalJunction(args.items, key == "Fn::Or");
      } else {
        r := None;
      }
    }

    method EvalJunction(operands: seq<Node>, decisive: bool) returns (r: Option<bool>)
      requires Valid() && MayAsk(env, inProgress, BoolEdgesOf(env, operands))
      modifies this
      ensures Kept(old(cache), old(inProgress))
      ensures Good(env, BoolEdgesOf(env, operands), r, Kleene(decisive, Conds(env, Least(env), operands)))
      ensures PlainTemplate(env) && AllPlain(operands) ==>
                Run(r, cache) == EvalNodes(env, true, old(cache), inProgress, operands, decisive, false)
      decreases Free(), operands, 0
    {
      ghost var meanings := Conds(env, Least(env), operands);
      ghost var exact := Grounded(env, BoolEdgesOf(env, operands));
      ghost var plain := PlainTemplate(env) && AllPlain(operands);
      var pending := false;
      assert operands[0..] == operands;
      for i := 0 to |operands|
        invariant Kept(old(cache), old(inProgress))
        invariant Undecided(meanings, i, decisive, pending, exact)
        invariant plain ==> AllPlain(operands[i..])
        invariant plain ==> EvalNodes(env, true, old(cache), inProgress, operands, decisive, false)
                            == EvalNodes(env, true, cache, inProgress, operands[i..], decisive, pending)
      {
        if plain {
          PlainAt(operands, i);
          assert operands[i..][0] == operands[i] && operands[i..][1..] == operands[i + 1..];
        }
        var result := EvaluateExpression(operands[i]);
        if result != Some(decisive) {
          UndecidedNext(meanings, i, decisive, pending, exact, result);
        }
        if result.None? {
          pending := true;
        } else if result.value == decisive {
          assert meanings[i] == Some(decisive);
          return Some(decisive);
        }
      }
      UndecidedEnd(meanings, decisive, pending, exact);
      r := if pending then None else Some(!decisive);
    }

    /** Whether a resource is created: only a condition that is false in every solution excludes it,
        and what cannot be evaluated is included and flagged. */
    method DetermineInclusion(conditionName: Option<Node>)
      returns (inclusion: Inclusion, condition: Option<Option<bool>>)
      requires Valid() && inProgress == []
      modifies this
      ensures Kept(old(cache), old(inProgress))
      ensures inclusion.EXCLUDED? ==> conditionName.Some?
      ensures !inclusion.UNKNOWN? && conditionName.Some? ==> conditionName.value.Str?
      ensures !inclusion.UNKNOWN? && conditionName.Some? ==>
                forall fix :: IsFixpoint(env, fix) ==> Ask(fix, conditionName.value.s) == Some(inclusion.INCLUDED?)
      ensures conditionName.None? ==> inclusion.INCLUDED?
      ensures conditionName.Some? && conditionName.value.Str? && Grounded(env, {conditionName.value.s}) ==>
                (inclusion.UNKNOWN? <==> Ask(Least(env), conditionName.value.s).None?)
      ensures condition.None? <==> conditionName.None?
    {
      if conditionName.None? {
        return INCLUDED, None;
      }
      if !conditionName.value.Str? {
        return UNKNOWN, Some(None);
      }
      var outcome := Evaluate(conditionName.value.s);
      condition := Some(outcome);
      inclusion := if outcome.None? then UNKNOWN else if outcome.value then INCLUDED else EXCLUDED;
      forall fix | IsFixpoint(env, fix)
        ensures Leq(outcome, Ask(fix, conditionName.value.s))
      {
        LeastIsLeast(env, fix);
      }
    }

    // -- values ----------------------------------------------------------------------

    method ResolveArg(node: Node) returns (r: Resolved)
      requires Valid() && MayAsk(env, inProgress, ValEdges(env, node))
      modifies this
      ensures Kept(old(cache), old(inProgress))
      ensures Good(env, ValEdges(env, node), r, Val(env, Least(env), node))
      decreases Free(), node, 3
    {
      match node {
        case Map(fields) =>
          if |fields| == 1 && IsIntrinsicKey(fields[0].key) {
            r := Dispatch(fields[0].key, fields[0].node, node);
          } else {
            r := ResolveMapping(fields);
          }
        case List(items) =>
          r := ResolveSequence(items);
        case _ =>
          r := Some(node);
      }
    }

    /** One member of a list. */
    method ResolveItem(items: seq<Node>, i: nat) returns (r: Resolved)
      requires i < |items| && Valid() && MayAsk(env, inProgress, ValEdgesOf(env, items))
      modifies this
      ensures Kept(old(cache), old(inProgress))
      ensures Good(env, ValEdgesOf(env, items), r, Vals(env, Least(env), items)[i])
      decreases Free(), items, 0
    {
      r := ResolveArg(items[i]);
    }

    /** One member of a mapping. */
    method ResolveField(fields: seq<Field>, i: nat) returns (r: Resolved)
      requires i < |fields| && Valid() && MayAsk(env, inProgress, FieldEdges(env, fields))
      modifies this
      ensures Kept(old(cache), old(inProgress))
      ensures Good(env, FieldEdges(env, fields), r, FieldVals(env, Least(env), fields)[i])
      decreases Free(), fields, 0
    {
      r := ResolveArg(fields[i].node);
    }

    method ResolveSequence(items: seq<Node>) returns (r: Resolved)
      requires Valid() && MayAsk(env, inProgress, ValEdgesOf(env, items))
      modifies this
      ensures Kept(old(cache), old(inProgress))
      ensures var kept := Keep(Vals(env, Least(env), items));
              Good(env, ValEdgesOf(env, items), r, if kept.None? then None else Some(List(kept.value)))
      decreases Free(), items, 1
    {
      ghost var meanings := Vals(env, Least(env), items);
      var out: seq<Node> := [];
      for i := 0 to |items|
        invariant Kept(old(cache), old(inProgress))
        invariant Keep(meanings[..i]) == Some(out)
      {
        var child := ResolveItem(items, i);
        if child.None? {
          SequenceUnresolved(env, ValEdgesOf(env, items), meanings, i);
          return None;
        }
        KeepNext(meanings, i);
        if !child.value.NoValue? {
          out := out + [child.value];
        }
      }
      assert meanings[..|items|] == meanings;
      r := Some(List(out));
    }

    method ResolveMapping(fields: seq<Field>) returns (r: Resolved)
      requires Valid() && MayAsk(env, inProgress, FieldEdges(env, fields))
      modifies this
      ensures Kept(old(cache), old(inProgress))
      ensures var kept := KeepFields(Keys(fields), FieldVals(env, Least(env), fields));
              Good(env, FieldEdges(env, fields), r, if kept.None? then None else Some(Map(kept.value)))
      decreases Free(), fields, 1
    {
      ghost var keys := Keys(fields);
      ghost var meanings := FieldVals(env, Least(env), fields);
      var out: seq<Field> := [];
      for i := 0 to |fields|
        invariant Kept(old(cache), old(inProgress))
        invariant KeepFields(keys[..i], meanings[..i]) == Some(out)
      {
        var child := ResolveField(fields, i);
        if child.None? {
          MappingUnresolved(env, FieldEdges(env, fields), keys, meanings, i);
          return None;
        }
        KeepFieldsNext(keys, meanings, i);
        if !child.value.NoValue? {
          out := out + [Field(fields[i].key, child.value)];
        }
      }
      assert meanings[..|fields|] == meanings && keys[..|fields|] == keys;
      r := Some(Map(out));
    }

    /** The variables of an Fn::Sub: stops at the first one that does not resolve. */
    method ResolveLocals(fields: seq<Field>) returns (r: Option<seq<Node>>)
      requires Valid() && MayAsk(env, inProgress, FieldEdges(env, fields))
      modifies this
      ensures Kept(old(cache), old(inProgress))
      ensures Good(env, FieldEdges(env, fields), r, AllOf(FieldVals(env, Least(env), fields)))
      decreases Free(), fields, 1
    {
      ghost var meanings := FieldVals(env, Least(env), fields);
      var out: seq<Node> := [];
      for i := 0 to |fields|
        invariant Kept(old(cache), old(inProgress))
        invariant AllOf(meanings[..i]) == Some(out)
      {
        var child := ResolveField(fields, i);
        if child.None? {
          LocalsUnresolved(env, FieldEdges(env, fields), meanings, i);
          return None;
        }
        AllOfNext(meanings, i);
        out := out + [child.value];
      }
      assert meanings[..|fields|] == meanings;
      r := Some(out);
    }

    method ResolveDefault(args: Node) returns (r: Resolved)
      requires args.List? && |args.items| == 4
      requires Valid() && MayAsk(env, inProgress, ValEdgesOf(env, args.items))
      modifies this
      ensures Kept(old(cache), old(inProgress))
      ensures Good(env, ValEdgesOf(env, args.items), r, Default(env, Least(env), args))
      decreases Free(), args, 1
    {
      if !args.items[3].Map? {
        return None;
      }
      var fields := args.items[3].fields;
      for i := 0 to |fields|
        invariant Kept(old(cache), old(inProgress))
        invariant DefaultIn(env, Least(env), fields) == DefaultIn(env, Least(env), fields[i..])
      {
        if fields[i].key == "DefaultValue" {
          NotIntrinsic(env, fields, i);
          r := ResolveArg(fields[i].node);
          return;
        }
        assert fields[i..][1..] == fields[i + 1..];
      }
      r := None;
    }

    method FindInMapKeys(args: Node) returns (r: Option<seq<Node>>)
      requires args.List? && 3 <= |args.items| <= 4
      requires Valid() && MayAsk(env, inProgress, ValEdgesOf(env, args.items))
      modifies this
      ensures Kept(old(cache), old(inProgress))
      ensures Good(env, ValEdgesOf(env, args.items), r,
          AllOf([Val(env, Least(env), args.items[0]), Val(env, Least(env), args.items[1]),
                                  Val(env, Least(env), args.items[2])]))
      decreases Free(), args, 1
    {
      ghost var meanings := [Val(env, Least(env), args.items[0]), Val(env, Least(env), args.items[1]),
                             Val(env, Least(env), args.items[2])];
      var out: seq<Node> := [];
      for i := 0 to 3
        invariant Kept(old(cache), old(inProgress))
        invariant AllOf(meanings[..i]) == Some(out)
      {
        var child := ResolveArg(args.items[i]);
        assert meanings[i] == Val(env, Least(env), args.items[i]);
        assert meanings[..i + 1][..i] == meanings[..i];
        if child.None? {
          AllOfSome(meanings);
          return None;
        }
        out := out + [child.value];
      }
      assert meanings[..3] == meanings;
      r := Some(out);
    }

    method Dispatch(key: string, args: Node, raw: Node) returns (r: Resolved)
      requires Single(raw) && raw.fields[0] == Field(key, args) && IsIntrinsicKey(key)
      requires Valid() && MayAsk(env, inProgress, ValEdges(env, raw))
      modifies this
      ensures Kept(old(cache), old(inProgress))
      ensures Good(env, ValEdges(env, raw), r, Apply(env, Least(env), key, args, raw))
      decreases Free(), raw, 2
    {
      if key == "Ref" {
        r := if args.Str? then RefValue(env, args.s) else None;
      } else if NeverResolved(key) {
        r := None;
      } else if IsBooleanOperator(key) {
        var b := EvaluateExpression(raw);
        r := AsValue(b);
      } else if key == "Fn::Sub" {
        if !IsSubArgs(args) {
          r := None;
        } else if SubFields(args) == [] {
          r := Sub(env, SubBody(args), [], Some([]));
        } else {
          var values := ResolveLocals(args.items[1].fields);
          r := Sub(env, SubBody(args), SubFields(args), values);
        }
      } else if key == "Fn::Base64" {
        var inner := ResolveArg(args);
        r := Base64(env, inner);
      } else if !args.List? {
        r := None;
      } else {
        r := DispatchList(key, args, raw);
      }
    }

    /** The intrinsics that take a list of arguments. */
    method DispatchList(key: string, args: Node, raw: Node) returns (r: Resolved)
      requires Single(raw) && raw.fields[0] == Field(key, args) && args.List? && IsIntrinsicKey(key)
      requires key != "Ref" && key != "Fn::Sub" && key != "Fn::Base64"
      requires !NeverResolved(key) && !IsBooleanOperator(key)
      requires Valid() && MayAsk(env, inProgress, ValEdges(env, raw))
      modifies this
      ensures Kept(old(cache), old(inProgress))
      ensures Good(env, ValEdges(env, raw), r, Apply(env, Least(env), key, args, raw))
      decreases Free(), raw, 1
    {
      if key == "Fn::FindInMap" && 3 <= |args.items| <= 4 {
        var keys := FindInMapKeys(args);
        if keys.None? {
          return None;
        }
        var default := None;
        if |args.items| == 4 {
          default := ResolveDefault(args);
        }
        r := FindInMap(env, keys, default);
        LookupMono(env.mappings, StringifyAll(env.prims, keys.value), default, Default(env, Least(env), args));
      } else if key == "Fn::If" && |args.items| == 3 && args.items[0].Str? {
        var outcome := Evaluate(args.items[0].s);
        if outcome.None? {
          return None;
        }
        r := ResolveArg(args.items[if outcome.value then 1 else 2]);
      } else if key == "Fn::Select" && |args.items| == 2 {
        var index := ResolveArg(args.items[0]);
        var list := ResolveArg(args.items[1]);
        r := Select(env, index, list);
      } else if key == "Fn::Join" && |args.items| == 2 {
        var list := ResolveArg(args.items[1]);
        r := Join(env, args.items[0], list);
      } else if key == "Fn::Split" && |args.items| == 2 && args.items[0].Str? {
        var source := ResolveArg(args.items[1]);
        r := Split(env, args.items[0].s, source);
      } else {
        r := None;
      }
    }

    // -- properties -------------------------------------------------------------------

    /** The lenient walk: what does not resolve is dropped, and the outcome of every intrinsic is
        logged. Against the walk of the least solution, only unresolved members are missing, whatever
        was cached before, and none where no cycle can be reached. */
    method ResolveLenient(node: Node, path: string) returns (value: Resolved, log: seq<Entry>)
      requires Valid() && MayAsk(env, inProgress, ValEdges(env, node))
      modifies this
      ensures Kept(old(cache), old(inProgress))
      ensures WalkBelow(value, log, Walk(env, Least(env), node, path))
      ensures Grounded(env, ValEdges(env, node)) ==> log == Walk(env, Least(env), node, path).log
      decreases Free(), node, 3
    {
      match node {
        case Map(fields) =>
          if |fields| == 1 && IsIntrinsicKey(fields[0].key) {
            value := Dispatch(fields[0].key, fields[0].node, node);
            log := [Entry(if path == "" then "$" else path, value)];
          } else {
            var kept;
            kept, log := LenientMapping(fields, path);
            value := Some(Map(kept));
          }
        case List(items) =>
          var kept;
          kept, log := LenientSequence(items, path);
          value := Some(List(kept));
        case _ =>
          value, log := Some(node), [];
      }
    }

    method LenientMapping(fields: seq<Field>, path: string) returns (kept: seq<Field>, log: seq<Entry>)
      requires Valid() && MayAsk(env, inProgress, FieldEdges(env, fields))
      modifies this
      ensures Kept(old(cache), old(inProgress))
      ensures FieldsBelow(kept, log, WalkFields(env, Least(env), fields, path))
      ensures Grounded(env, FieldEdges(env, fields)) ==> log == WalkFields(env, Least(env), fields, path).1
      decreases Free(), fields, 1
    {
      ghost var keys, ws := Keys(fields), FieldWalks(env, Least(env), fields, path);
      ghost var exact := Grounded(env, FieldEdges(env, fields));
      kept, log := [], [];
      for i := 0 to |fields|
        invariant Kept(old(cache), old(inProgress))
        invariant FieldsBelow(kept, log, FoldFields(keys[..i], ws[..i]))
        invariant exact ==> log == FoldFields(keys[..i], ws[..i]).1
      {
        var child, more := LenientField(fields, i, path);
        FieldsBelowNext(kept, log, keys, ws, i, child, more);
        kept, log := kept + KeepField(fields[i].key, child), log + more;
      }
      assert keys[..|fields|] == keys && ws[..|fields|] == ws;
      WalkFieldsIsFold(env, Least(env), fields, path);
    }

    method LenientField(fields: seq<Field>, i: nat, path: string) returns (value: Resolved, log: seq<Entry>)
      requires i < |fields| && Valid() && MayAsk(env, inProgress, FieldEdges(env, fields))
      modifies this
      ensures Kept(old(cache), old(inProgress))
      ensures WalkBelow(value, log, FieldWalks(env, Least(env), fields, path)[i])
      ensures Grounded(env, FieldEdges(env, fields)) ==> log == FieldWalks(env, Least(env), fields, path)[i].log
      decreases Free(), fields, 0
    {
      value, log := ResolveLenient(fields[i].node, FieldPath(path, fields[i].key));
    }

    method LenientSequence(items: seq<Node>, path: string) returns (kept: seq<Node>, log: seq<Entry>)
      requires Valid() && MayAsk(env, inProgress, ValEdgesOf(env, items))
      modifies this
      ensures Kept(old(cache), old(inProgress))
      ensures ItemsBelow(kept, log, WalkItems(env, Least(env), items, path, 0))
      ensures Grounded(env, ValEdgesOf(env, items)) ==> log == WalkItems(env, Least(env), items, path, 0).1
      decreases Free(), items, 1
    {
      ghost var ws := ItemWalks(env, Least(env), items, path, 0);
      ghost var exact := Grounded(env, ValEdgesOf(env, items));
      kept, log := [], [];
      for i := 0 to |items|
        invariant Kept(old(cache), old(inProgress))
        invariant ItemsBelow(kept, log, FoldItems(ws[..i]))
        invariant exact ==> log == FoldItems(ws[..i]).1
      {
        var child, more := LenientItem(items, i, path);
        ItemsBelowNext(kept, log, ws, i, child, more);
        kept, log := kept + KeepItem(child), log + more;
      }
      assert ws[..|items|] == ws;
      WalkItemsIsFold(env, Least(env), items, path, 0);
    }

    method LenientItem(items: seq<Node>, i: nat, path: string) returns (value: Resolved, log: seq<Entry>)
      requires i < |items| && Valid() && MayAsk(env, inProgress, ValEdgesOf(env, items))
      modifies this
      ensures Kept(old(cache), old(inProgress))
      ensures WalkBelow(value, log, ItemWalks(env, Least(env), items, path, 0)[i])
      ensures Grounded(env, ValEdgesOf(env, items)) ==> log == ItemWalks(env, Least(env), items, path, 0)[i].log
      decreases Free(), items, 0
    {
      value, log := ResolveLenient(items[i], ItemPath(path, i));
    }

    /** A resource's properties and the sink that goes with them. When no two intrinsics share a path, a
        sink without unresolved paths means that the value is the right one in every solution, on cyclic
        templates too, and the value of the tree in which every decided Fn::If is replaced by its branch;
        where no cycle can be reached an unresolved path means that there is no value. */
    method ResolveProperties(node: Node) returns (value: Resolved, sink: map<string, Resolved>)
      requires Valid() && inProgress == []
      modifies this
      ensures Kept(old(cache), old(inProgress))
      ensures DistinctPaths(Walk(env, Least(env), node, "").log) && NothingUnresolved(sink) ==>
                value.Some? && forall fix :: IsFixpoint(env, fix) ==>
                  Val(env, fix, node) == value && Val(env, fix, Branches.Decided(fix, node)) == value
      ensures DistinctPaths(Walk(env, Least(env), node, "").log) && Grounded(env, ValEdges(env, node)) ==>
                (NothingUnresolved(sink) <==> Val(env, Least(env), node).Some?)
    {
      var log;
      value, log := ResolveLenient(node, "");
      sink := Sink(log);
      ghost var w := Walk(env, Least(env), node, "");
      if DistinctPaths(w.log) {
        assert DistinctPaths(log);
        DistinctHidesNothing(log);
        CleanSinkIff(log);
        WalkIsStrict(env, Least(env), node, "");
        if AllResolved(log) {
          ResolvedWalkIsStrict(env, Least(env), node, "", value, log);
          forall fix | IsFixpoint(env, fix)
            ensures Val(env, fix, node) == value && Val(env, fix, Branches.Decided(fix, node)) == value
          {
            Branches.DecidedKeepsValue(env, fix, node);
            LeastIsLeast(env, fix);
            ValMono(env, ValEdges(env, node), Least(env), fix, node);
          }
        }
      }
    }
  }

  // -- And and Or, operand by operand -----------------------------------------------------------

  /** None of the first i operands settles the answer, as far as their answers tell. */
  ghost predicate Undecided(meanings: seq<Option<bool>>, i: nat, decisive: bool, pending: bool, exact: bool) {
    && i <= |meanings|
    && (forall j :: 0 <= j < i ==> meanings[j] == Some(!decisive) || (pending && (meanings[j].None? || !exact)))
    && (pending && exact ==> None in meanings)
  }

  lemma UndecidedNext(meanings: seq<Option<bool>>, i: nat, decisive: bool, pending: bool, exact: bool,
      answer: Option<bool>)
    requires Undecided(meanings, i, decisive, pending, exact) && i < |meanings| && answer != Some(decisive)
    requires answer.Some? || exact ==> answer == meanings[i]
    ensures Undecided(meanings, i + 1, decisive, pending || answer.None?, exact)
  {
    if answer.Some? {
      assert answer.value != decisive && answer.value == !decisive;
    } else if exact {
      assert meanings[i] in meanings;
    }
  }

  lemma UndecidedEnd(meanings: seq<Option<bool>>, decisive: bool, pending: bool, exact: bool)
    requires Undecided(meanings, |meanings|, decisive, pending, exact)
    ensures var answer := if pending then None else Some(!decisive);
            Leq(answer, Kleene(decisive, meanings)) && (exact ==> answer == Kleene(decisive, meanings))
  {
  }

  // -- one more child, or one that does not resolve ------------------------------------------

  lemma SequenceUnresolved(env: Env, names: set<string>, rs: seq<Resolved>, i: nat)
    requires i < |rs| && Good(env, names, None, rs[i])
    ensures Good(env, names, None, if Keep(rs).None? then None else Some(List(Keep(rs).value)))
  {
    KeepSome(rs);
  }

  lemma MappingUnresolved(env: Env, names: set<string>, keys: seq<string>, rs: seq<Resolved>, i: nat)
    requires |keys| == |rs| && i < |rs| && Good(env, names, None, rs[i])
    ensures Good(env, names, None, if KeepFields(keys, rs).None? then None else Some(Map(KeepFields(keys, rs).value)))
  {
    KeepFieldsSome(keys, rs);
  }

  lemma LocalsUnresolved(env: Env, names: set<string>, rs: seq<Resolved>, i: nat)
    requires i < |rs| && Good(env, names, None, rs[i])
    ensures Good(env, names, None, AllOf(rs))
  {
    AllOfSome(rs);
  }

  lemma KeepNext(rs: seq<Resolved>, i: nat)
    requires i < |rs| && rs[i].Some? && Keep(rs[..i]).Some?
    ensures var front := Keep(rs[..i]).value;
            Keep(rs[..i + 1]) == Some(if rs[i].value.NoValue? then front else front + [rs[i].value])
  {
    assert rs[..i + 1][..i] == rs[..i];
  }

  lemma AllOfNext(rs: seq<Resolved>, i: nat)
    requires i < |rs| && rs[i].Some? && AllOf(rs[..i]).Some?
    ensures AllOf(rs[..i + 1]) == Some(AllOf(rs[..i]).value + [rs[i].value])
  {
    assert rs[..i + 1][..i] == rs[..i];
  }

  lemma KeepFieldsNext(keys: seq<string>, rs: seq<Resolved>, i: nat)
    requires |keys| == |rs| && i < |rs| && rs[i].Some? && KeepFields(keys[..i], rs[..i]).Some?
    ensures var front := KeepFields(keys[..i], rs[..i]).value;
            KeepFields(keys[..i + 1], rs[..i + 1]) ==
            Some(if rs[i].value.NoValue? then front else front + [Field(keys[i], rs[i].value)])
  {
    assert keys[..i + 1][..i] == keys[..i] && rs[..i + 1][..i] == rs[..i];
  }

  lemma NotIntrinsic(env: Env, fields: seq<Field>, i: nat)
    requires i < |fields| && fields[i].key == "DefaultValue"
    ensures ValEdges(env, fields[i].node) <= ValEdges(env, Map(fields))
  {
  }
}
