/** Which branch an Fn::If takes (src/resolver/resolver.py:445-488), at one place and in a whole tree:
    replacing every Fn::If on a decided condition by the branch that condition selects changes no
    value. */
module Branches {
  import opened Templates
  import opened Denotation

  /** On a true condition the second argument, on a false one the third, otherwise nothing. */
  lemma IfTakesItsBranch(env: Env, k: Knowledge, name: string, whenTrue: Node, whenFalse: Node)
    ensures var node := Intrinsic("Fn::If", [Str(name), whenTrue, whenFalse]);
            && (name in k && k[name] ==> Val(env, k, node) == Val(env, k, whenTrue))
            && (name in k && !k[name] ==> Val(env, k, node) == Val(env, k, whenFalse))
            && (name !in k ==> Val(env, k, node) == None)
  {
    assert "Fn::If"[..4] == "Fn::";
    var args := List([Str(name), whenTrue, whenFalse]);
    assert args.items[0] == Str(name) && args.items[1] == whenTrue && args.items[2] == whenFalse;
  }

  // -- a tree with its decided branches taken ----------------------------------------------------

  predicate IsIf(key: string, args: Node) {
    key == "Fn::If" && args.List? && |args.items| == 3 && args.items[0].Str?
  }

  /** A node in value position with every Fn::If that k decides replaced by the branch it takes. */
  function Decided(k: Knowledge, node: Node): Node
    decreases node, 3
  {
    match node
    case Map(fields) =>
      if |fields| == 1 && IsIntrinsicKey(fields[0].key) then DecidedIntrinsic(k, fields[0].key, fields[0].node, node)
      else Map(DecidedFields(k, fields))
    case List(items) => List(DecidedItems(k, items))
    case _ => node
  }

  function DecidedItems(k: Knowledge, items: seq<Node>): (r: seq<Node>)
    ensures |r| == |items|
    ensures forall i :: 0 <= i < |r| ==> r[i] == Decided(k, items[i])
    decreases items, 0
  {
    if items == [] then [] else [Decided(k, items[0])] + DecidedItems(k, items[1..])
  }

  function DecidedFields(k: Knowledge, fields: seq<Field>): (r: seq<Field>)
    ensures |r| == |fields|
    ensures forall i :: 0 <= i < |r| ==> r[i] == Field(fields[i].key, Decided(k, fields[i].node))
    decreases fields, 0
  {
    if fields == [] then [] else [Field(fields[0].key, Decided(k, fields[0].node))] + DecidedFields(k, fields[1..])
  }

  /** The arguments that are resolved as values are rewritten, those that are read as they stand are not. */
  function DecidedIntrinsic(k: Knowledge, key: string, args: Node, raw: Node): Node
    requires Single(raw) && raw.fields[0] == Field(key, args)
    decreases raw, 2
  {
    if IsIf(key, args) && args.items[0].s in k then Decided(k, args.items[if k[args.items[0].s] then 1 else 2])
    else if key == "Ref" || NeverResolved(key) then raw
    else if IsBooleanOperator(key) then DecidedCond(k, raw)
    else if key == "Fn::Base64" then Map([Field(key, Decided(k, args))])
    else if !args.List? then raw
    else Map([Field(key, List(DecidedArguments(k, key, args.items)))])
  }

  function DecidedArguments(k: Knowledge, key: string, items: seq<Node>): (r: seq<Node>)
    ensures |r| == |items|
    decreases items, 1
  {
    if key == "Fn::Sub" && |items| == 2 && items[1].Map? then [items[0], Map(DecidedFields(k, items[1].fields))]
    else if key == "Fn::FindInMap" && |items| == 3 then DecidedItems(k, items)
    else if key == "Fn::FindInMap" && |items| == 4 then
      DecidedItems(k, items[..3]) + [if items[3].Map? then Map(DecidedFields(k, items[3].fields)) else items[3]]
    else if key == "Fn::If" && |items| == 3 then [items[0], Decided(k, items[1]), Decided(k, items[2])]
    else if key == "Fn::Select" then DecidedItems(k, items)
    else if key in {"Fn::Join", "Fn::Split"} && |items| == 2 then [items[0], Decided(k, items[1])]
    else items
  }

  function DecidedCond(k: Knowledge, node: Node): Node
    decreases node, 1
  {
    if !Single(node) then node
    else
      var key, args := node.fields[0].key, node.fields[0].node;
      if !args.List? then node
      else if key == "Fn::Equals" then Map([Field(key, List(DecidedItems(k, args.items)))])
      else if key in {"Fn::Not", "Fn::And", "Fn::Or"} then Map([Field(key, List(DecidedConds(k, args.items)))])
      else node
  }

  function DecidedConds(k: Knowledge, nodes: seq<Node>): (r: seq<Node>)
    ensures |r| == |nodes|
    ensures forall i :: 0 <= i < |r| ==> r[i] == DecidedCond(k, nodes[i])
    decreases nodes, 0
  {
    if nodes == [] then [] else [DecidedCond(k, nodes[0])] + DecidedConds(k, nodes[1..])
  }

  /** A decided Fn::If is gone; what replaces it is its branch, with the branches inside taken too. */
  lemma DecidedTakesBranch(k: Knowledge, name: string, whenTrue: Node, whenFalse: Node)
    requires name in k
    ensures Decided(k, Intrinsic("Fn::If", [Str(name), whenTrue, whenFalse])) ==
            if k[name] then Decided(k, whenTrue) else Decided(k, whenFalse)
  {
    assert "Fn::If"[..4] == "Fn::";
    var args := List([Str(name), whenTrue, whenFalse]);
    assert args.items[0] == Str(name) && args.items[1] == whenTrue && args.items[2] == whenFalse;
  }

  /** In a list and in a mapping every member is rewritten, where it stands. */
  lemma DecidedMembers(k: Knowledge, items: seq<Node>, fields: seq<Field>, i: nat)
    requires !(|fields| == 1 && IsIntrinsicKey(fields[0].key))
    ensures i < |items| ==> Decided(k, List(items)).List? && |Decided(k, List(items)).items| == |items|
                            && Decided(k, List(items)).items[i] == Decided(k, items[i])
    ensures i < |fields| ==> Decided(k, Map(fields)).Map? && |Decided(k, Map(fields)).fields| == |fields|
                             && Decided(k, Map(fields)).fields[i] == Field(fields[i].key, Decided(k, fields[i].node))
  {
  }

  // -- taking the branches changes no value --------------------------------------------------------

  lemma {:induction false} ItemsKept(env: Env, k: Knowledge, items: seq<Node>)
    ensures Vals(env, k, DecidedItems(k, items)) == Vals(env, k, items)
    decreases items, 0
  {
    var rewritten := DecidedItems(k, items);
    forall i | 0 <= i < |items|
      ensures Vals(env, k, rewritten)[i] == Vals(env, k, items)[i]
    {
      DecidedKeepsValue(env, k, items[i]);
    }
  }

  lemma {:induction false} FieldsKept(env: Env, k: Knowledge, fields: seq<Field>)
    ensures FieldVals(env, k, DecidedFields(k, fields)) == FieldVals(env, k, fields)
    ensures Keys(DecidedFields(k, fields)) == Keys(fields)
    decreases fields, 0
  {
    var rewritten := DecidedFields(k, fields);
    forall i | 0 <= i < |fields|
      ensures FieldVals(env, k, rewritten)[i] == FieldVals(env, k, fields)[i]
    {
      DecidedKeepsValue(env, k, fields[i].node);
    }
  }

  lemma {:induction false} CondsKept(env: Env, k: Knowledge, nodes: seq<Node>)
    ensures Conds(env, k, DecidedConds(k, nodes)) == Conds(env, k, nodes)
    decreases nodes, 0
  {
    var rewritten := DecidedConds(k, nodes);
    forall i | 0 <= i < |nodes|
      ensures Conds(env, k, rewritten)[i] == Conds(env, k, nodes)[i]
    {
      CondKept(env, k, nodes[i]);
    }
  }

  lemma {:induction false} CondKept(env: Env, k: Knowledge, node: Node)
    ensures Cond(env, k, DecidedCond(k, node)) == Cond(env, k, node)
    decreases node, 1
  {
    if Single(node) && node.fields[0].node.List? {
      var key, items := node.fields[0].key, node.fields[0].node.items;
      assert node == Map([Field(key, List(items))]);
      if key == "Fn::Equals" {
        ItemsKept(env, k, items);
        EqualsKept(env, k, node, items, DecidedItems(k, items));
      } else if key in {"Fn::Not", "Fn::And", "Fn::Or"} {
        CondsKept(env, k, items);
        OperandsKept(env, k, node, key, items, DecidedConds(k, items));
      }
    }
  }

  lemma EqualsKept(env: Env, k: Knowledge, node: Node, items: seq<Node>, rewritten: seq<Node>)
    requires node == Map([Field("Fn::Equals", List(items))])
    requires |items| == |rewritten| && Vals(env, k, rewritten) == Vals(env, k, items)
    ensures Cond(env, k, Map([Field("Fn::Equals", List(rewritten))])) == Cond(env, k, node)
  {
    if |items| == 2 {
      assert Vals(env, k, items)[0] == Vals(env, k, rewritten)[0]
          && Vals(env, k, items)[1] == Vals(env, k, rewritten)[1];
    }
  }

  lemma OperandsKept(env: Env, k: Knowledge, node: Node, key: string, items: seq<Node>, rewritten: seq<Node>)
    requires key in {"Fn::Not", "Fn::And", "Fn::Or"} && node == Map([Field(key, List(items))])
    requires |items| == |rewritten| && Conds(env, k, rewritten) == Conds(env, k, items)
    ensures Cond(env, k, Map([Field(key, List(rewritten))])) == Cond(env, k, node)
  {
    if |items| == 1 {
      assert Conds(env, k, items)[0] == Conds(env, k, rewritten)[0];
    }
  }

  /** The whole tree, at any depth. */
  lemma {:induction false} DecidedKeepsValue(env: Env, k: Knowledge, node: Node)
    ensures Val(env, k, Decided(k, node)) == Val(env, k, node)
    decreases node, 3
  {
    match node
    case Map(fields) =>
      if |fields| == 1 && IsIntrinsicKey(fields[0].key) {
        assert fields == [fields[0]];
        IntrinsicKept(env, k, fields[0].key, fields[0].node, node);
      } else {
        FieldsKept(env, k, fields);
      }
    case List(items) => ItemsKept(env, k, items);
    case _ =>
  }

  lemma {:induction false} IntrinsicKept(env: Env, k: Knowledge, key: string, args: Node, raw: Node)
    requires Single(raw) && raw.fields[0] == Field(key, args) && IsIntrinsicKey(key)
    ensures Val(env, k, DecidedIntrinsic(k, key, args, raw)) == Val(env, k, raw)
    decreases raw, 2
  {
    assert raw == Map([Field(key, args)]);
    if IsIf(key, args) && args.items[0].s in k {
      var name, branch := args.items[0].s, args.items[if k[args.items[0].s] then 1 else 2];
      DecidedKeepsValue(env, k, branch);
      assert args.items == [Str(name), args.items[1], args.items[2]];
      IfTakesItsBranch(env, k, name, args.items[1], args.items[2]);
    } else if key == "Ref" || NeverResolved(key) {
    } else if IsBooleanOperator(key) {
      CondKept(env, k, raw);
      BooleanStays(k, raw);
    } else if key == "Fn::Base64" {
      DecidedKeepsValue(env, k, args);
    } else if args.List? {
      ArgumentsKept(env, k, key, args.items);
    }
  }

  lemma BooleanStays(k: Knowledge, node: Node)
    requires Single(node) && IsBooleanOperator(node.fields[0].key)
    ensures Single(DecidedCond(k, node)) && DecidedCond(k, node).fields[0].key == node.fields[0].key
  {
  }

  lemma {:induction false} ArgumentsKept(env: Env, k: Knowledge, key: string, items: seq<Node>)
    requires IsIntrinsicKey(key) && key != "Ref" && !NeverResolved(key) && !IsBooleanOperator(key)
    requires key != "Fn::Base64" && !(IsIf(key, List(items)) && items[0].s in k)
    ensures Val(env, k, Intrinsic(key, DecidedArguments(k, key, items))) == Val(env, k, Intrinsic(key, items))
    decreases items, 2
  {
    if key == "Fn::Sub" && |items| == 2 && items[1].Map? {
      FieldsKept(env, k, items[1].fields);
      SubKept(env, k, items, DecidedFields(k, items[1].fields));
    } else if key == "Fn::FindInMap" && 3 <= |items| <= 4 {
      FindInMapKept(env, k, items);
    } else if key == "Fn::If" && |items| == 3 {
      UndecidedIf(env, k, items, [items[0], Decided(k, items[1]), Decided(k, items[2])]);
    } else if key == "Fn::Select" {
      ItemsKept(env, k, items);
      SelectKept(env, k, items, DecidedItems(k, items));
    } else if key in {"Fn::Join", "Fn::Split"} && |items| == 2 {
      DecidedKeepsValue(env, k, items[1]);
      SecondKept(env, k, key, items, Decided(k, items[1]));
    }
  }

  lemma SubKept(env: Env, k: Knowledge, items: seq<Node>, fields: seq<Field>)
    requires |items| == 2 && items[1].Map? && |fields| == |items[1].fields|
    requires FieldVals(env, k, fields) == FieldVals(env, k, items[1].fields) && Keys(fields) == Keys(items[1].fields)
    ensures Val(env, k, Intrinsic("Fn::Sub", [items[0], Map(fields)])) == Val(env, k, Intrinsic("Fn::Sub", items))
  {
    SubOf(env, k, items[0], items[1].fields);
    SubOf(env, k, items[0], fields);
    assert items == [items[0], Map(items[1].fields)];
    if items[0].Str? {
      SameSub(env, items[0].s, fields, items[1].fields, AllOf(FieldVals(env, k, fields)));
    }
  }

  /** Fn::Sub with variables: the text is substituted when all of them resolve. */
  lemma SubOf(env: Env, k: Knowledge, body: Node, fields: seq<Field>)
    ensures Val(env, k, Intrinsic("Fn::Sub", [body, Map(fields)])) ==
            if body.Str? then Sub(env, body.s, fields, AllOf(FieldVals(env, k, fields))) else None
  {
    assert "Fn::Sub"[..4] == "Fn::";
    var args := List([body, Map(fields)]);
    assert args.items[0] == body && args.items[1] == Map(fields);
  }

  lemma SameSub(env: Env, body: string, a: seq<Field>, b: seq<Field>, values: Option<seq<Node>>)
    requires |a| == |b| && Keys(a) == Keys(b)
    ensures Sub(env, body, a, values) == Sub(env, body, b, values)
  {
    if values.Some? && |values.value| == |a| {
      SameZip(a, b, values.value);
    }
  }

  lemma SameZip(a: seq<Field>, b: seq<Field>, values: seq<Node>)
    requires |a| == |b| == |values| && Keys(a) == Keys(b)
    ensures Zip(a, values) == Zip(b, values)
  {
    forall i | 0 <= i < |a|
      ensures Zip(a, values)[i] == Zip(b, values)[i]
    {
      assert Keys(a)[i] == Keys(b)[i];
    }
  }

  lemma UndecidedIf(env: Env, k: Knowledge, items: seq<Node>, rewritten: seq<Node>)
    requires |items| == |rewritten| == 3 && items[0] == rewritten[0] && !(items[0].Str? && items[0].s in k)
    ensures Val(env, k, Intrinsic("Fn::If", rewritten)) == Val(env, k, Intrinsic("Fn::If", items))
  {
    assert "Fn::If"[..4] == "Fn::";
  }

  lemma SelectKept(env: Env, k: Knowledge, items: seq<Node>, rewritten: seq<Node>)
    requires |items| == |rewritten| && Vals(env, k, rewritten) == Vals(env, k, items)
    ensures Val(env, k, Intrinsic("Fn::Select", rewritten)) == Val(env, k, Intrinsic("Fn::Select", items))
  {
    assert "Fn::Select"[..4] == "Fn::";
    if |items| == 2 {
      assert Vals(env, k, items)[0] == Vals(env, k, rewritten)[0]
          && Vals(env, k, items)[1] == Vals(env, k, rewritten)[1];
      assert items == [items[0], items[1]] && rewritten == [rewritten[0], rewritten[1]];
      SelectVal(env, k, items[0], items[1]);
      SelectVal(env, k, rewritten[0], rewritten[1]);
    }
  }

  lemma SecondKept(env: Env, k: Knowledge, key: string, items: seq<Node>, second: Node)
    requires key in {"Fn::Join", "Fn::Split"} && |items| == 2 && Val(env, k, second) == Val(env, k, items[1])
    ensures Val(env, k, Intrinsic(key, [items[0], second])) == Val(env, k, Intrinsic(key, items))
  {
    assert "Fn::Join"[..4] == "Fn::" && "Fn::Split"[..4] == "Fn::";
    var rewritten := [items[0], second];
    assert rewritten[0] == items[0] && rewritten[1] == second;
  }

  lemma {:induction false} FindInMapKept(env: Env, k: Knowledge, items: seq<Node>)
    requires 3 <= |items| <= 4
    ensures Val(env, k, Intrinsic("Fn::FindInMap", DecidedArguments(k, "Fn::FindInMap", items))) ==
            Val(env, k, Intrinsic("Fn::FindInMap", items))
    decreases items, 1
  {
    var rewritten := DecidedArguments(k, "Fn::FindInMap", items);
    if |items| == 3 {
      assert items[..3] == items;
    }
    ItemsKept(env, k, items[..3]);
    FirstThree(k, items);
    ThreeKept(env, k, items, rewritten);
    FindInMapOf(env, k, items);
    FindInMapOf(env, k, rewritten);
    if |items| == 4 && items[3].Map? {
      DefaultKept(env, k, items[3].fields);
    }
    SameDefault(env, k, items);
  }

  lemma FirstThree(k: Knowledge, items: seq<Node>)
    requires 3 <= |items| <= 4
    ensures DecidedArguments(k, "Fn::FindInMap", items)[..3] == DecidedItems(k, items[..3])
  {
    if |items| == 3 {
      assert items[..3] == items;
    }
  }

  lemma SameDefault(env: Env, k: Knowledge, items: seq<Node>)
    requires 3 <= |items| <= 4
    requires |items| == 4 && items[3].Map? ==>
               DefaultIn(env, k, DecidedFields(k, items[3].fields)) == DefaultIn(env, k, items[3].fields)
    ensures Default(env, k, List(DecidedArguments(k, "Fn::FindInMap", items))) == Default(env, k, List(items))
  {
  }

  lemma FindInMapOf(env: Env, k: Knowledge, items: seq<Node>)
    requires 3 <= |items| <= 4
    ensures Val(env, k, Intrinsic("Fn::FindInMap", items)) ==
            FindInMap(env, AllOf([Val(env, k, items[0]), Val(env, k, items[1]), Val(env, k, items[2])]),
                      Default(env, k, List(items)))
  {
    assert "Fn::FindInMap"[..4] == "Fn::";
  }

  lemma ThreeKept(env: Env, k: Knowledge, items: seq<Node>, rewritten: seq<Node>)
    requires |items| == |rewritten| >= 3
    requires Vals(env, k, rewritten[..3]) == Vals(env, k, items[..3])
    ensures forall i :: 0 <= i < 3 ==> Val(env, k, rewritten[i]) == Val(env, k, items[i])
  {
    forall i | 0 <= i < 3
      ensures Val(env, k, rewritten[i]) == Val(env, k, items[i])
    {
      assert Vals(env, k, rewritten[..3])[i] == Val(env, k, rewritten[..3][i]);
      assert Vals(env, k, items[..3])[i] == Val(env, k, items[..3][i]);
    }
  }

  lemma {:induction false} DefaultKept(env: Env, k: Knowledge, fields: seq<Field>)
    ensures DefaultIn(env, k, DecidedFields(k, fields)) == DefaultIn(env, k, fields)
    decreases fields, 0
  {
    if fields != [] {
      DecidedKeepsValue(env, k, fields[0].node);
      DefaultKept(env, k, fields[1..]);
      assert DecidedFields(k, fields)[1..] == DecidedFields(k, fields[1..]);
    }
  }
}
