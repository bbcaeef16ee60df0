/** What a template means, given what is known about its conditions.

    `Cond` and `Val` read a template as equations over the truth values of the named conditions:
    they have no memo table, no in-progress stack and no evaluation order. A condition that is
    not in the knowledge map is unknown. The evaluator (Evaluator.dfy) is proved against them. */
module Denotation {
  import opened Templates

  /** The conditions whose truth value is known. */
  type Knowledge = map<string, bool>

  function Ask(k: Knowledge, name: string): Option<bool> {
    if name in k then Some(k[name]) else None
  }

  predicate Single(node: Node) {
    node.Map? && |node.fields| == 1
  }

  predicate IsIntrinsicKey(key: string) {
    key == "Ref" || StartsWith(key, "Fn::")
  }

  predicate IsBooleanOperator(key: string) {
    key in {"Fn::And", "Fn::Or", "Fn::Not", "Fn::Equals"}
  }

  predicate NeverResolved(key: string) {
    key in {"Fn::GetAtt", "Fn::ImportValue", "Fn::GetAZs",
            "Fn::Cidr", "Fn::ForEach", "Fn::Length", "Fn::ToJsonString", "Fn::Transform",
            "Fn::Contains", "Fn::EachMemberEquals", "Fn::EachMemberIn", "Fn::RefAll",
            "Fn::ValueOf", "Fn::ValueOfAll"}
  }

  // -- combinators shared with the evaluator -----------------------------------

  function EqualValues(env: Env, left: Resolved, right: Resolved): Option<bool> {
    if left.None? || right.None? then None
    else Some(Stringify(env.prims, left.value) == Stringify(env.prims, right.value))
  }

  function Negate(inner: Option<bool>): Option<bool> {
    if inner.None? then None else Some(!inner.value)
  }

  function AsValue(b: Option<bool>): Resolved {
    if b.None? then None else Some(Bool(b.value))
  }

  /** And/Or in three-valued logic: one decisive operand settles it, whatever the others are. */
  function Kleene(decisive: bool, operands: seq<Option<bool>>): Option<bool> {
    if Some(decisive) in operands then Some(decisive)
    else if None in operands then None
    else Some(!decisive)
  }

  function RefValue(env: Env, name: string): Resolved {
    if name == "AWS::NoValue" then Some(NoValue)
    else if name == "AWS::NotificationARNs" then None
    else if name in env.pseudo then Some(env.pseudo[name])
    else if StartsWith(name, "AWS::") then None
    else if name in env.params then Some(env.params[name])
    else None
  }

  /** A list's resolved members with NoValue dropped, or None if any member is unresolved. */
  function Keep(rs: seq<Resolved>): Option<seq<Node>> {
    if rs == [] then Some([])
    else
      var front := Keep(rs[..|rs| - 1]);
      var last := rs[|rs| - 1];
      if front.None? || last.None? then None
      else if last.value.NoValue? then front
      else Some(front.value + [last.value])
  }

  function KeepFields(keys: seq<string>, rs: seq<Resolved>): Option<seq<Field>>
    requires |keys| == |rs|
  {
    if rs == [] then Some([])
    else
      var front := KeepFields(keys[..|rs| - 1], rs[..|rs| - 1]);
      var last := rs[|rs| - 1];
      if front.None? || last.None? then None
      else if last.value.NoValue? then front
      else Some(front.value + [Field(keys[|rs| - 1], last.value)])
  }

  /** Every member's value, NoValue included, or None if any member is unresolved. */
  function AllOf(rs: seq<Resolved>): Option<seq<Node>> {
    if rs == [] then Some([])
    else
      var front := AllOf(rs[..|rs| - 1]);
      var last := rs[|rs| - 1];
      if front.None? || last.None? then None else Some(front.value + [last.value])
  }

  function FieldOf(fields: seq<Field>, key: string): Resolved {
    if fields == [] then None
    else if fields[0].key == key then Some(fields[0].node)
    else FieldOf(fields[1..], key)
  }

  /** Walks the Mappings block; a miss at any level falls back to the default. */
  function LookupPath(cursor: Node, keys: seq<string>, default: Resolved): Resolved
    decreases keys
  {
    if keys == [] then Some(cursor)
    else if !cursor.Map? || FieldOf(cursor.fields, keys[0]).None? then default
    else LookupPath(FieldOf(cursor.fields, keys[0]).value, keys[1..], default)
  }

  function FindInMap(env: Env, keys: Option<seq<Node>>, default: Resolved): Resolved {
    if keys.None? then None
    else LookupPath(env.mappings, StringifyAll(env.prims, keys.value), default)
  }

  function AsIndex(env: Env, v: Node): Option<int> {
    match v
    case Bool(b) => Some(if b then 1 else 0)
    case Num(_, whole) => whole
    case Str(s) => env.prims.parseInt(s)
    case _ => None
  }

  /** Python indexing: a negative index counts from the end. */
  function Select(env: Env, index: Resolved, list: Resolved): Resolved {
    if index.None? || list.None? then None
    else
      var i := AsIndex(env, index.value);
      if i.None? || !list.value.List? then None
      else
        var n := |list.value.items|;
        if !(-n <= i.value < n) then None
        else Some(list.value.items[if i.value < 0 then i.value + n else i.value])
  }

  function Join(env: Env, delim: Node, list: Resolved): Resolved {
    if list.None? || !list.value.List? then None
    else Some(Str(JoinWith(if delim.Str? then delim.s else "", StringifyAll(env.prims, list.value.items))))
  }

  function Pieces(parts: seq<string>): (r: seq<Node>)
    ensures |r| == |parts| && forall i :: 0 <= i < |r| ==> r[i] == Str(parts[i])
  {
    seq(|parts|, i requires 0 <= i < |parts| => Str(parts[i]))
  }

  function Split(env: Env, delim: string, source: Resolved): Resolved {
    if source.None? || delim == "" then None
    else Some(List(Pieces(SplitOn(Stringify(env.prims, source.value), delim))))
  }

  function Base64(env: Env, inner: Resolved): Resolved {
    if inner.None? then None else Some(Str(env.prims.base64(Stringify(env.prims, inner.value))))
  }

  // -- Fn::Sub -----------------------------------------------------------------

  function NextBrace(s: string, from: nat): (i: nat)
    requires from <= |s|
    ensures from <= i <= |s|
    decreases |s| - from
  {
    if from == |s| || s[from] == '{' || s[from] == '}' then from else NextBrace(s, from + 1)
  }

  /** What one ${token} is replaced with; `locals` are the variables given with the body. */
  function TokenText(env: Env, locals: seq<Field>, token: string): Option<string>
    requires token != ""
  {
    if token[0] == '!' then Some("${" + token[1..] + "}")
    else if FieldOf(locals, token).Some? then Some(Stringify(env.prims, FieldOf(locals, token).value))
    else if '.' in token then None
    else
      var r := RefValue(env, token);
      if r.None? || r.value.NoValue? then None else Some(Stringify(env.prims, r.value))
  }

  function Substitute(env: Env, locals: seq<Field>, s: string): Option<string>
    decreases |s|
  {
    if s == "" then Some("")
    else
      var close := if StartsWith(s, "${") then NextBrace(s, 2) else 0;
      if 2 < close < |s| && s[close] == '}' then
        var text := TokenText(env, locals, s[2..close]);
        var rest := Substitute(env, locals, s[close + 1..]);
        if text.None? || rest.None? then None else Some(text.value + rest.value)
      else
        var rest := Substitute(env, locals, s[1..]);
        if rest.None? then None else Some([s[0]] + rest.value)
  }

  function Zip(fields: seq<Field>, values: seq<Node>): seq<Field>
    requires |fields| == |values|
  {
    seq(|fields|, i requires 0 <= i < |fields| => Field(fields[i].key, values[i]))
  }

  function Sub(env: Env, body: string, fields: seq<Field>, values: Option<seq<Node>>): Resolved {
    if values.None? || |values.value| != |fields| then None
    else
      var text := Substitute(env, Zip(fields, values.value), body);
      if text.None? then None else Some(Str(text.value))
  }

  predicate IsSubArgs(args: Node) {
    args.Str? || (args.List? && |args.items| == 2 && args.items[0].Str?)
  }

  function SubBody(args: Node): string
    requires IsSubArgs(args)
  {
    if args.Str? then args.s else args.items[0].s
  }

  function SubFields(args: Node): seq<Field>
    requires IsSubArgs(args)
  {
    if args.List? && args.items[1].Map? then args.items[1].fields else []
  }

  // -- the denotation ------------------------------------------------------------

  function Keys(fields: seq<Field>): (r: seq<string>)
    ensures |r| == |fields| && forall i :: 0 <= i < |r| ==> r[i] == fields[i].key
  {
    seq(|fields|, i requires 0 <= i < |fields| => fields[i].key)
  }

  function Conds(env: Env, k: Knowledge, nodes: seq<Node>): (r: seq<Option<bool>>)
    ensures |r| == |nodes|
    ensures forall i :: 0 <= i < |r| ==> r[i] == Cond(env, k, nodes[i])
    decreases nodes, 0
  {
    if nodes == [] then [] else [Cond(env, k, nodes[0])] + Conds(env, k, nodes[1..])
  }

  /** A node in boolean position. */
  function Cond(env: Env, k: Knowledge, node: Node): Option<bool>
    decreases node, 1
  {
    if node.Bool? then Some(node.b)
    else if !Single(node) then None
    else
      var key, args := node.fields[0].key, node.fields[0].node;
      if key == "Condition" then (if args.Str? then Ask(k, args.s) else None)
      else if key == "Ref" && args.Str? && args.s in env.conditions then Ask(k, args.s)
      else if !args.List? then None
      else if key == "Fn::Equals" && |args.items| == 2 then
        EqualValues(env, Val(env, k, args.items[0]), Val(env, k, args.items[1]))
      else if key == "Fn::Not" && |args.items| == 1 then Negate(Cond(env, k, args.items[0]))
      else if (key == "Fn::And" || key == "Fn::Or") && args.items != [] then
        Kleene(key == "Fn::Or", Conds(env, k, args.items))
      else None
  }

  function Vals(env: Env, k: Knowledge, nodes: seq<Node>): (r: seq<Resolved>)
    ensures |r| == |nodes|
    ensures forall i :: 0 <= i < |r| ==> r[i] == Val(env, k, nodes[i])
    decreases nodes, 0
  {
    if nodes == [] then [] else [Val(env, k, nodes[0])] + Vals(env, k, nodes[1..])
  }

  function FieldVals(env: Env, k: Knowledge, fields: seq<Field>): (r: seq<Resolved>)
    ensures |r| == |fields|
    ensures forall i :: 0 <= i < |r| ==> r[i] == Val(env, k, fields[i].node)
    decreases fields, 0
  {
    if fields == [] then [] else [Val(env, k, fields[0].node)] + FieldVals(env, k, fields[1..])
  }

  /** A node in value position, resolved strictly: one unresolved member fails the whole. */
  function Val(env: Env, k: Knowledge, node: Node): Resolved
    decreases node, 3
  {
    match node
    case Map(fields) =>
      if |fields| == 1 && IsIntrinsicKey(fields[0].key) then Apply(env, k, fields[0].key, fields[0].node, node)
      else
        var kept := KeepFields(Keys(fields), FieldVals(env, k, fields));
        if kept.None? then None else Some(Map(kept.value))
    case List(items) =>
      var kept := Keep(Vals(env, k, items));
      if kept.None? then None else Some(List(kept.value))
    case _ => Some(node)
  }

  function Default(env: Env, k: Knowledge, args: Node): Resolved
    requires args.List?
    decreases args, 0
  {
    if |args.items| == 4 && args.items[3].Map? then
      DefaultIn(env, k, args.items[3].fields)
    else None
  }

  function DefaultIn(env: Env, k: Knowledge, fields: seq<Field>): Resolved
    decreases fields, 0
  {
    if fields == [] then None
    else if fields[0].key == "DefaultValue" then Val(env, k, fields[0].node)
    else DefaultIn(env, k, fields[1..])
  }

  function Apply(env: Env, k: Knowledge, key: string, args: Node, raw: Node): Resolved
    requires Single(raw) && raw.fields[0] == Field(key, args)
    decreases raw, 2
  {
    if key == "Ref" then (if args.Str? then RefValue(env, args.s) else None)
    else if NeverResolved(key) then None
    else if IsBooleanOperator(key) then AsValue(Cond(env, k, raw))
    else if key == "Fn::Sub" then
      if !IsSubArgs(args) then None
      else if SubFields(args) == [] then Sub(env, SubBody(args), [], Some([]))
      else Sub(env, SubBody(args), SubFields(args), AllOf(FieldVals(env, k, args.items[1].fields)))
    else if key == "Fn::Base64" then Base64(env, Val(env, k, args))
    else if !args.List? then None
    else if key == "Fn::FindInMap" && 3 <= |args.items| <= 4 then
      FindInMap(env,
        AllOf([Val(env, k, args.items[0]), Val(env, k, args.items[1]), Val(env, k, args.items[2])]),
            Default(env, k, args))
    else if key == "Fn::If" && |args.items| == 3 && args.items[0].Str? then
      var outcome := Ask(k, args.items[0].s);
      if outcome.None? then None else Val(env, k, args.items[if outcome.value then 1 else 2])
    else if key == "Fn::Select" && |args.items| == 2 then
      Select(env, Val(env, k, args.items[0]), Val(env, k, args.items[1]))
    else if key == "Fn::Join" && |args.items| == 2 then
      Join(env, args.items[0], Val(env, k, args.items[1]))
    else if key == "Fn::Split" && |args.items| == 2 && args.items[0].Str? then
      Split(env, args.items[0].s, Val(env, k, args.items[1]))
    else None
  }

  // -- Fn::Join undoes Fn::Split -------------------------------------------------------

  function Intrinsic(key: string, args: seq<Node>): Node {
    Map([Field(key, List(args))])
  }

  lemma SplitVal(env: Env, k: Knowledge, delim: string, source: Node)
    ensures Val(env, k, Intrinsic("Fn::Split", [Str(delim), source])) == Split(env, delim, Val(env, k, source))
  {
    assert "Fn::Split"[..4] == "Fn::";
    var args := List([Str(delim), source]);
    assert args.items[1] == source;
  }

  lemma JoinVal(env: Env, k: Knowledge, delim: string, list: Node)
    ensures Val(env, k, Intrinsic("Fn::Join", [Str(delim), list])) == Join(env, Str(delim), Val(env, k, list))
  {
    assert "Fn::Join"[..4] == "Fn::";
    var args := List([Str(delim), list]);
    assert args.items[1] == list;
  }

  lemma StringifyPieces(p: Prims, parts: seq<string>)
    ensures StringifyAll(p, Pieces(parts)) == parts
  {
  }

  /** Joining what was split at the same delimiter gives the string back, through the resolver. */
  lemma JoinOfSplit(env: Env, k: Knowledge, delim: string, source: Node)
    requires delim != "" && Val(env, k, source).Some?
    ensures Val(env, k, Intrinsic("Fn::Join", [Str(delim), Intrinsic("Fn::Split", [Str(delim), source])]))
         == Some(Str(Stringify(env.prims, Val(env, k, source).value)))
  {
    var text := Stringify(env.prims, Val(env, k, source).value);
    var split := Intrinsic("Fn::Split", [Str(delim), source]);
    SplitVal(env, k, delim, source);
    JoinVal(env, k, delim, split);
    StringifyPieces(env.prims, SplitOn(text, delim));
    JoinUndoesSplit(text, delim);
  }

  // -- Fn::Select picks the intended member ----------------------------------------------

  /** How many members are left once the dropped ones are out. */
  function Present(rs: seq<Resolved>): nat {
    if rs == [] then 0
    else Present(rs[..|rs| - 1]) + if rs[|rs| - 1] == Some(NoValue) then 0 else 1
  }

  /** Member p of a list is the one that is at position j when the dropped ones are not counted. */
  predicate IsNth(rs: seq<Resolved>, p: nat, j: int) {
    p < |rs| && rs[p].Some? && !rs[p].value.NoValue? && Present(rs[..p]) == j
  }

  lemma {:induction false} KeepSome(rs: seq<Resolved>)
    ensures Keep(rs).Some? <==> None !in rs
  {
    if rs != [] {
      KeepSome(rs[..|rs| - 1]);
      assert rs == rs[..|rs| - 1] + [rs[|rs| - 1]];
    }
  }

  lemma {:induction false} KeepPresent(rs: seq<Resolved>)
    requires Keep(rs).Some?
    ensures |Keep(rs).value| == Present(rs)
  {
    if rs != [] {
      KeepPresent(rs[..|rs| - 1]);
    }
  }

  lemma {:induction false} KeepNth(rs: seq<Resolved>, j: nat) returns (p: nat)
    requires Keep(rs).Some? && j < |Keep(rs).value|
    ensures IsNth(rs, p, j) && rs[p].value == Keep(rs).value[j]
    decreases |rs|
  {
    var front := rs[..|rs| - 1];
    KeepPresent(front);
    if j < |Keep(front).value| {
      p := KeepNth(front, j);
      assert front[p] == rs[p] && front[..p] == rs[..p];
    } else {
      p := |rs| - 1;
    }
  }

  lemma SelectVal(env: Env, k: Knowledge, index: Node, list: Node)
    ensures Val(env, k, Intrinsic("Fn::Select", [index, list])) == Select(env, Val(env, k, index), Val(env, k, list))
  {
    assert "Fn::Select"[..4] == "Fn::";
    var args := List([index, list]);
    assert args.items[0] == index && args.items[1] == list;
  }

  /** Selecting from a list gives the member that stands at the index among those not dropped as
      AWS::NoValue, counted from the end when the index is negative; it gives nothing when any member
      is unresolved or the index is out of range. */
  lemma SelectPicksIntended(env: Env, k: Knowledge, index: Node, items: seq<Node>, i: int)
    requires Val(env, k, index).Some? && AsIndex(env, Val(env, k, index).value) == Some(i)
    ensures var members := Vals(env, k, items);
            var picked := Val(env, k, Intrinsic("Fn::Select", [index, List(items)]));
            var n: int := Present(members);
            if None in members || !(-n <= i < n) then picked.None?
            else exists p: nat :: IsNth(members, p, if i < 0 then i + n else i) && picked == members[p]
  {
    var members := Vals(env, k, items);
    SelectVal(env, k, index, List(items));
    KeepSome(members);
    if Keep(members).Some? {
      KeepPresent(members);
      var n: int := Present(members);
      if -n <= i < n {
        var p := KeepNth(members, if i < 0 then i + n else i);
        assert IsNth(members, p, if i < 0 then i + n else i);
      }
    }
  }
}
