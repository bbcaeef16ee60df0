/** What the intrinsics mean, in terms of the template and its environment alone
    (src/resolver/resolver.py:209-655, conditions.py:104-223): literals stand for themselves, removed
    members are gone, references give what was supplied, comparisons compare texts, the boolean
    operators obey their laws, lookups find what the Mappings block holds, and Fn::Sub replaces its
    tokens and nothing else. */
module IntrinsicLaws {
  import opened Templates
  import opened Denotation
  import Branches

  // -- literals -----------------------------------------------------------------------------

  /** No intrinsic at any depth. */
  predicate Literal(node: Node)
    decreases node, 1
  {
    match node
    case Map(fields) => !(|fields| == 1 && IsIntrinsicKey(fields[0].key)) && LiteralFields(fields)
    case List(items) => LiteralItems(items)
    case NoValue => false
    case _ => true
  }

  predicate LiteralItems(items: seq<Node>)
    decreases items, 0
  {
    items != [] ==> Literal(items[0]) && LiteralItems(items[1..])
  }

  predicate LiteralFields(fields: seq<Field>)
    decreases fields, 0
  {
    fields != [] ==> Literal(fields[0].node) && LiteralFields(fields[1..])
  }

  lemma {:induction false} KeepWhole(rs: seq<Resolved>, nodes: seq<Node>)
    requires |rs| == |nodes| && forall i :: 0 <= i < |rs| ==> rs[i] == Some(nodes[i]) && !nodes[i].NoValue?
    ensures Keep(rs) == Some(nodes)
  {
    if rs != [] {
      KeepWhole(rs[..|rs| - 1], nodes[..|rs| - 1]);
      assert nodes == nodes[..|rs| - 1] + [nodes[|rs| - 1]];
    }
  }

  lemma {:induction false} KeepFieldsWhole(rs: seq<Resolved>, fields: seq<Field>)
    requires |rs| == |fields| && forall i :: 0 <= i < |rs| ==> rs[i] == Some(fields[i].node) && !fields[i].node.NoValue?
    ensures KeepFields(Keys(fields), rs) == Some(fields)
  {
    if rs != [] {
      var n := |rs| - 1;
      KeepFieldsWhole(rs[..n], fields[..n]);
      assert Keys(fields)[..n] == Keys(fields[..n]);
      assert fields == fields[..n] + [fields[n]];
    }
  }

  lemma {:induction false} LiteralAt(items: seq<Node>, i: nat)
    requires LiteralItems(items) && i < |items|
    ensures Literal(items[i])
  {
    if i > 0 {
      LiteralAt(items[1..], i - 1);
    }
  }

  lemma {:induction false} LiteralFieldAt(fields: seq<Field>, i: nat)
    requires LiteralFields(fields) && i < |fields|
    ensures Literal(fields[i].node)
  {
    if i > 0 {
      LiteralFieldAt(fields[1..], i - 1);
    }
  }

  /** A tree without intrinsics resolves to itself, whatever is known. */
  lemma {:induction false} LiteralsStand(env: Env, k: Knowledge, node: Node)
    requires Literal(node)
    ensures Val(env, k, node) == Some(node)
  {
    match node
    case Map(fields) =>
      forall i | 0 <= i < |fields|
        ensures FieldVals(env, k, fields)[i] == Some(fields[i].node) && !fields[i].node.NoValue?
      {
        LiteralFieldAt(fields, i);
        LiteralsStand(env, k, fields[i].node);
      }
      KeepFieldsWhole(FieldVals(env, k, fields), fields);
    case List(items) =>
      forall i | 0 <= i < |items|
        ensures Vals(env, k, items)[i] == Some(items[i]) && !items[i].NoValue?
      {
        LiteralAt(items, i);
        LiteralsStand(env, k, items[i]);
      }
      KeepWhole(Vals(env, k, items), items);
    case _ =>
  }

  // -- Ref and AWS::NoValue -------------------------------------------------------------------

  function Reference(name: string): Node {
    Map([Field("Ref", Str(name))])
  }

  /** A Ref gives the pseudo parameter or the parameter of that name, and nothing for any other name. */
  lemma ReferencesGiveParameters(env: Env, k: Knowledge, name: string)
    requires name != "AWS::NoValue"
    ensures var r := Val(env, k, Reference(name));
            && (name in env.pseudo && name != "AWS::NotificationARNs" ==> r == Some(env.pseudo[name]))
            && (name in env.params && name !in env.pseudo && !StartsWith(name, "AWS::") ==> r == Some(env.params[name]))
            && (name !in env.params && name !in env.pseudo ==> r == None)
  {
  }

  lemma {:induction false} KeepConcat(a: seq<Resolved>, b: seq<Resolved>)
    ensures Keep(a + b) ==
            if Keep(a).None? || Keep(b).None? then None else Some(Keep(a).value + Keep(b).value)
    decreases |b|
  {
    if b == [] {
      assert a + b == a;
      if Keep(a).Some? {
        assert Keep(a).value + [] == Keep(a).value;
      }
    } else {
      var n := |b| - 1;
      assert (a + b)[..|a + b| - 1] == a + b[..n] && (a + b)[|a + b| - 1] == b[n];
      KeepConcat(a, b[..n]);
      if Keep(a).Some? && Keep(b).Some? && !b[n].value.NoValue? {
        var x, y := Keep(a).value, Keep(b[..n]).value;
        assert (x + y) + [b[n].value] == x + (y + [b[n].value]);
      }
    }
  }

  lemma {:induction false} ValsConcat(env: Env, k: Knowledge, a: seq<Node>, b: seq<Node>)
    ensures Vals(env, k, a + b) == Vals(env, k, a) + Vals(env, k, b)
  {
  }

  /** A list member that refers to AWS::NoValue is as good as not there. */
  lemma NoValueIsDropped(env: Env, k: Knowledge, before: seq<Node>, after: seq<Node>)
    ensures Val(env, k, List(before + [Reference("AWS::NoValue")] + after)) == Val(env, k, List(before + after))
  {
    var gone := [Reference("AWS::NoValue")];
    var b, g, a := Vals(env, k, before), Vals(env, k, gone), Vals(env, k, after);
    assert Vals(env, k, gone)[0] == Val(env, k, gone[0]) == Some(NoValue);
    assert g == [Some(NoValue)] && g[..0] == [];
    assert Keep(g) == Some([]);
    ValsConcat(env, k, before + gone, after);
    ValsConcat(env, k, before, gone);
    ValsConcat(env, k, before, after);
    KeepConcat(b + g, a);
    KeepConcat(b, g);
    KeepConcat(b, a);
    if Keep(b).Some? {
      assert Keep(b).value + [] == Keep(b).value;
    }
  }

  // -- booleans ---------------------------------------------------------------------------------

  lemma NamedCondition(env: Env, k: Knowledge, name: string)
    ensures Cond(env, k, Map([Field("Condition", Str(name))])) == if name in k then Some(k[name]) else None
    ensures name in env.conditions ==> Cond(env, k, Reference(name)) == if name in k then Some(k[name]) else None
  {
  }

  lemma NotLaw(env: Env, k: Knowledge, a: Node)
    ensures var r := Cond(env, k, Intrinsic("Fn::Not", [a]));
            (r == Some(true) <==> Cond(env, k, a) == Some(false))
                && (r == Some(false) <==> Cond(env, k, a) == Some(true))
  {
    assert List([a]).items[0] == a;
  }

  /** A conjunction is true when every operand is, and false when one is; a disjunction the other way. */
  lemma AndOrLaw(env: Env, k: Knowledge, operands: seq<Node>)
    requires operands != []
    ensures var both := Cond(env, k, Intrinsic("Fn::And", operands));
            && (both == Some(true) <==> forall i :: 0 <= i < |operands| ==> Cond(env, k, operands[i]) == Some(true))
            && (both == Some(false) <==> exists i :: 0 <= i < |operands| && Cond(env, k, operands[i]) == Some(false))
    ensures var any := Cond(env, k, Intrinsic("Fn::Or", operands));
            && (any == Some(true) <==> exists i :: 0 <= i < |operands| && Cond(env, k, operands[i]) == Some(true))
            && (any == Some(false) <==> forall i :: 0 <= i < |operands| ==> Cond(env, k, operands[i]) == Some(false))
  {
    var answers := Conds(env, k, operands);
    assert answers[0] in answers;
    KleeneLaw(false, answers);
    KleeneLaw(true, answers);
    assert forall i :: 0 <= i < |operands| ==> answers[i] == Cond(env, k, operands[i]);
  }

  lemma KleeneLaw(decisive: bool, answers: seq<Option<bool>>)
    ensures Kleene(decisive, answers) == Some(decisive) <==>
        exists i :: 0 <= i < |answers| && answers[i] == Some(decisive)
    ensures Kleene(decisive, answers) == Some(!decisive) <==> forall i :: 0 <= i < |answers| ==>
        answers[i] == Some(!decisive)
  {
    if i :| 0 <= i < |answers| && answers[i] != Some(!decisive) {
      assert answers[i] in answers;
      if answers[i].Some? {
        assert answers[i].value == decisive;
      }
    }
  }

  /** Two values are equal when they print the same, so a number equals the string that spells it and a
      boolean equals "true" or "false"; comparing with anything unresolved is undecided. */
  lemma EqualsLaw(env: Env, k: Knowledge, a: Node, b: Node)
    ensures var r := Cond(env, k, Intrinsic("Fn::Equals", [a, b]));
            && (r.None? <==> Val(env, k, a).None? || Val(env, k, b).None?)
            && (r.Some? && Val(env, k, a) == Val(env, k, b) ==> r == Some(true))
            && r == Cond(env, k, Intrinsic("Fn::Equals", [b, a]))
  {
    EqualsOf(env, k, a, b);
    EqualsOf(env, k, b, a);
  }

  lemma EqualsOf(env: Env, k: Knowledge, a: Node, b: Node)
    ensures Cond(env, k, Intrinsic("Fn::Equals", [a, b])) == EqualValues(env, Val(env, k, a), Val(env, k, b))
  {
    assert List([a, b]).items[0] == a && List([a, b]).items[1] == b;
  }

  lemma EqualTexts(env: Env, k: Knowledge, x: string, y: string, whole: Option<int>, b: bool)
    ensures Cond(env, k, Intrinsic("Fn::Equals", [Str(x), Str(y)])) == Some(x == y)
    ensures Cond(env, k, Intrinsic("Fn::Equals", [Num(x, whole), Str(y)])) == Some(x == y)
    ensures Cond(env, k, Intrinsic("Fn::Equals", [Bool(b), Str(y)])) == Some(y == if b then "true" else "false")
    ensures Cond(env, k, Intrinsic("Fn::Equals", [Null, Str(y)])) == Some(y == "")
  {
    EqualsOf(env, k, Str(x), Str(y));
    EqualsOf(env, k, Num(x, whole), Str(y));
    EqualsOf(env, k, Bool(b), Str(y));
    EqualsOf(env, k, Null, Str(y));
  }

  // -- Fn::FindInMap ------------------------------------------------------------------------------

  ghost predicate UniqueKeys(fields: seq<Field>) {
    forall i, j :: 0 <= i < j < |fields| ==> fields[i].key != fields[j].key
  }

  ghost predicate HasKey(fields: seq<Field>, key: string) {
    exists i :: 0 <= i < |fields| && fields[i].key == key
  }

  lemma {:induction false} FieldFound(fields: seq<Field>, key: string, node: Node)
    requires UniqueKeys(fields) && Field(key, node) in fields
    ensures FieldOf(fields, key) == Some(node)
  {
    if fields[0] != Field(key, node) {
      var i :| 0 <= i < |fields| && fields[i] == Field(key, node);
      assert fields[1..][i - 1] == fields[i];
      FieldFound(fields[1..], key, node);
    }
  }

  lemma {:induction false} FieldMissing(fields: seq<Field>, key: string)
    requires !HasKey(fields, key)
    ensures FieldOf(fields, key) == None
  {
    if fields != [] {
      assert fields[0].key != key;
      forall i | 0 <= i < |fields[1..]|
        ensures fields[1..][i].key != key
      {
        assert fields[i + 1].key != key;
      }
      FieldMissing(fields[1..], key);
    }
  }

  lemma ThreeTexts(env: Env, k: Knowledge, a: string, b: string, c: string)
    ensures AllOf([Val(env, k, Str(a)), Val(env, k, Str(b)), Val(env, k, Str(c))]) == Some([Str(a), Str(b), Str(c)])
    ensures StringifyAll(env.prims, [Str(a), Str(b), Str(c)]) == [a, b, c]
  {
    var one: seq<Resolved> := [Some(Str(a))];
    var two: seq<Resolved> := [Some(Str(a)), Some(Str(b))];
    assert [] + [Some(Str(a))] == one && one + [Some(Str(b))] == two;
    assert [] + [Str(a)] == [Str(a)] && [Str(a)] + [Str(b)] == [Str(a), Str(b)];
    assert [Str(a), Str(b)] + [Str(c)] == [Str(a), Str(b), Str(c)];
    AllOfSnoc([], Str(a));
    AllOfSnoc(one, Str(b));
    AllOfSnoc(two, Str(c));
    assert two + [Some(Str(c))] == [Val(env, k, Str(a)), Val(env, k, Str(b)), Val(env, k, Str(c))];
  }

  lemma AllOfSnoc(rs: seq<Resolved>, v: Node)
    ensures AllOf(rs + [Some(v)]) == if AllOf(rs).None? then None else Some(AllOf(rs).value + [v])
  {
    assert (rs + [Some(v)])[..|rs|] == rs;
  }

  lemma LookupOf(env: Env, k: Knowledge, m: string, t: string, s: string, rest: seq<Node>)
    requires |rest| <= 1
    ensures Val(env, k, Intrinsic("Fn::FindInMap", [Str(m), Str(t), Str(s)] + rest)) ==
            LookupPath(env.mappings, [m, t, s], Default(env, k, List([Str(m), Str(t), Str(s)] + rest)))
  {
    assert "Fn::FindInMap"[..4] == "Fn::";
    var args := List([Str(m), Str(t), Str(s)] + rest);
    assert args.items[0] == Str(m) && args.items[1] == Str(t) && args.items[2] == Str(s);
    ThreeTexts(env, k, m, t, s);
  }

  /** A path that the Mappings block has gives the value at its end, with or without a default. */
  lemma FindInMapFinds(env: Env, k: Knowledge, m: string, t: string, s: string, rest: seq<Node>,
                       maps: seq<Field>, tops: seq<Field>, seconds: seq<Field>, value: Node)
    requires env.mappings == Map(maps) && UniqueKeys(maps) && UniqueKeys(tops) && UniqueKeys(seconds)
    requires Field(m, Map(tops)) in maps && Field(t, Map(seconds)) in tops && Field(s, value) in seconds
    requires |rest| <= 1
    ensures Val(env, k, Intrinsic("Fn::FindInMap", [Str(m), Str(t), Str(s)] + rest)) == Some(value)
  {
    LookupOf(env, k, m, t, s, rest);
    FieldFound(maps, m, Map(tops));
    FieldFound(tops, t, Map(seconds));
    FieldFound(seconds, s, value);
    var path := [m, t, s];
    assert path[1..] == [t, s] && path[1..][1..] == [s] && path[1..][1..][1..] == [];
    assert LookupPath(value, [], Default(env, k, List([Str(m), Str(t), Str(s)] + rest))) == Some(value);
    assert LookupPath(Map(seconds), [s], Default(env, k, List([Str(m), Str(t), Str(s)] + rest))) == Some(value);
    assert LookupPath(Map(tops), [t, s], Default(env, k, List([Str(m), Str(t), Str(s)] + rest))) == Some(value);
  }

  /** Where no such path exists: a mapping, a key or the level itself is missing. */
  ghost predicate NoPath(mappings: Node, path: seq<string>)
    decreases path
  {
    path != [] &&
    (|| !mappings.Map?
     || !HasKey(mappings.fields, path[0])
     || (UniqueKeys(mappings.fields)
         && exists n :: Field(path[0], n) in mappings.fields && NoPath(n, path[1..])))
  }

  lemma {:induction false} MissFallsBack(mappings: Node, path: seq<string>, default: Resolved)
    requires NoPath(mappings, path)
    ensures LookupPath(mappings, path, default) == default
    decreases path
  {
    if mappings.Map? {
      if !HasKey(mappings.fields, path[0]) {
        FieldMissing(mappings.fields, path[0]);
      } else {
        var n :| Field(path[0], n) in mappings.fields && NoPath(n, path[1..]);
        FieldFound(mappings.fields, path[0], n);
        MissFallsBack(n, path[1..], default);
      }
    }
  }

  /** A path that is not there gives the default's value when one is given, and nothing otherwise. */
  lemma FindInMapMisses(env: Env, k: Knowledge, m: string, t: string, s: string, default: Node)
    requires NoPath(env.mappings, [m, t, s])
    ensures Val(env, k, Intrinsic("Fn::FindInMap", [Str(m), Str(t), Str(s)])) == None
    ensures Val(env, k, Intrinsic("Fn::FindInMap", [Str(m), Str(t), Str(s), Map([Field("DefaultValue", default)])])) ==
            Val(env, k, default)
  {
    var three, given := [Str(m), Str(t), Str(s)], Map([Field("DefaultValue", default)]);
    assert three + [] == three && three + [given] == [Str(m), Str(t), Str(s), given];
    LookupOf(env, k, m, t, s, []);
    LookupOf(env, k, m, t, s, [given]);
    MissFallsBack(env.mappings, [m, t, s], None);
    MissFallsBack(env.mappings, [m, t, s], Val(env, k, default));
    assert Default(env, k, List(three + [given])) == DefaultIn(env, k, given.fields) == Val(env, k, default);
  }

  // -- Fn::Sub ------------------------------------------------------------------------------------

  /** A body as its author reads it: stretches of text, and ${...} tokens between them. */
  datatype Segment = Text(text: string) | Token(name: string)

  predicate WellFormed(segments: seq<Segment>) {
    forall s :: s in segments ==>
      if s.Text? then '$' !in s.text else s.name != "" && '{' !in s.name && '}' !in s.name
  }

  function Body(segments: seq<Segment>): string {
    if segments == [] then ""
    else (match segments[0] case Text(t) => t case Token(n) => "${" + n + "}") + Body(segments[1..])
  }

  /** The texts as they are, the tokens by what they stand for; nothing if one of them stands for nothing. */
  function Meaning(env: Env, locals: map<string, string>, segments: seq<Segment>): Option<string> {
    if segments == [] then Some("")
    else
      var head := match segments[0] case Text(t) => Some(t) case Token(n) => TokenMeaning(env, locals, n);
      var rest := Meaning(env, locals, segments[1..]);
      if head.None? || rest.None? then None else Some(head.value + rest.value)
  }

  /** An escaped token stays a token; otherwise a variable of the Fn::Sub itself, then a pseudo parameter,
      then a parameter, printed. */
  function TokenMeaning(env: Env, locals: map<string, string>, name: string): Option<string>
  {
    if name == "" then None
    else if name[0] == '!' then Some("${" + name[1..] + "}")
    else if name in locals then Some(locals[name])
    else if '.' in name || name in {"AWS::NoValue", "AWS::NotificationARNs"} then None
    else if name in env.pseudo && !env.pseudo[name].NoValue? then Some(Stringify(env.prims, env.pseudo[name]))
    else if name in env.pseudo || StartsWith(name, "AWS::") then None
    else if name in env.params && !env.params[name].NoValue? then Some(Stringify(env.prims, env.params[name]))
    else None
  }

  /** The printed variables. */
  ghost predicate Prints(env: Env, fields: seq<Field>, locals: map<string, string>) {
    && UniqueKeys(fields)
    && (forall name :: name in locals <==> HasKey(fields, name))
    && (forall f :: f in fields ==> f.key in locals && locals[f.key] == Stringify(env.prims, f.node))
  }

  lemma TokenTextIs(env: Env, fields: seq<Field>, locals: map<string, string>, name: string)
    requires Prints(env, fields, locals) && name != ""
    ensures TokenText(env, fields, name) == TokenMeaning(env, locals, name)
  {
    if HasKey(fields, name) {
      var i :| 0 <= i < |fields| && fields[i].key == name;
      assert fields[i] in fields && fields[i] == Field(name, fields[i].node);
      FieldFound(fields, name, fields[i].node);
    } else {
      FieldMissing(fields, name);
    }
  }

  lemma {:induction false} BraceAt(s: string, from: nat, n: nat)
    requires from <= n < |s| && s[n] == '}' && forall i :: from <= i < n ==> s[i] != '{' && s[i] != '}'
    ensures NextBrace(s, from) == n
    decreases n - from
  {
    if from < n {
      BraceAt(s, from + 1, n);
    }
  }

  lemma TokenFirst(env: Env, fields: seq<Field>, name: string, rest: string)
    requires name != "" && '{' !in name && '}' !in name
    ensures var text, tail := TokenText(env, fields, name), Substitute(env, fields, rest);
            Substitute(env, fields, "${" + name + "}" + rest) ==
            if text.None? || tail.None? then None else Some(text.value + tail.value)
  {
    var s, n := "${" + name + "}" + rest, |name| + 2;
    assert s[..2] == "${" && s[2..n] == name && s[n] == '}' && s[n + 1..] == rest;
    forall i | 2 <= i < n
      ensures s[i] != '{' && s[i] != '}'
    {
      assert s[i] == name[i - 2] && name[i - 2] in name;
    }
    BraceAt(s, 2, n);
  }

  lemma {:induction false} TextFirst(env: Env, fields: seq<Field>, text: string, rest: string)
    requires '$' !in text
    ensures var tail := Substitute(env, fields, rest);
            Substitute(env, fields, text + rest) == if tail.None? then None else Some(text + tail.value)
  {
    if text == "" {
      assert text + rest == rest;
      assert Substitute(env, fields, rest).Some? ==>
          "" + Substitute(env, fields, rest).value == Substitute(env, fields, rest).value;
    } else {
      var s := text + rest;
      assert s[0] == text[0] && text[0] in text && s[1..] == text[1..] + rest;
      if |s| >= 2 {
        assert s[..2][0] == s[0] && "${"[0] == '$';
      }
      TextFirst(env, fields, text[1..], rest);
      var tail := Substitute(env, fields, rest);
      if tail.Some? {
        assert [s[0]] + (text[1..] + tail.value) == text + tail.value;
      }
    }
  }

  /** Substitution replaces every token by its meaning and leaves every other character alone. */
  lemma {:induction false} SubstituteIsMeaning(env: Env, fields: seq<Field>, locals: map<string, string>,
      segments: seq<Segment>)
    requires WellFormed(segments) && Prints(env, fields, locals)
    ensures Substitute(env, fields, Body(segments)) == Meaning(env, locals, segments)
  {
    if segments != [] {
      var rest := Body(segments[1..]);
      assert segments[0] in segments;
      assert forall s :: s in segments[1..] ==> s in segments;
      SubstituteIsMeaning(env, fields, locals, segments[1..]);
      match segments[0]
      case Text(t) => TextFirst(env, fields, t, rest);
      case Token(n) =>
        TokenFirst(env, fields, n, rest);
        TokenTextIs(env, fields, locals, n);
        assert "${" + n + "}" + rest == ("${" + n + "}") + rest;
    }
  }

  /** Fn::Sub without variables, for any body. */
  lemma SubLaw(env: Env, k: Knowledge, segments: seq<Segment>)
    requires WellFormed(segments)
    ensures var r := Val(env, k, Intrinsic1("Fn::Sub", Str(Body(segments))));
            r == match Meaning(env, map[], segments) case None => None case Some(text) => Some(Str(text))
  {
    SubTextOf(env, k, Body(segments));
    SubstituteIsMeaning(env, [], map[], segments);
  }

  /** Fn::Sub with variables: they come before the parameters of the same name. */
  lemma SubWithVariables(env: Env, k: Knowledge, segments: seq<Segment>, fields: seq<Field>, values: seq<Node>,
                         locals: map<string, string>)
    requires WellFormed(segments) && |values| == |fields|
    requires forall i :: 0 <= i < |fields| ==> Val(env, k, fields[i].node) == Some(values[i])
    requires Prints(env, Zip(fields, values), locals)
    ensures var r := Val(env, k, Intrinsic("Fn::Sub", [Str(Body(segments)), Map(fields)]));
            r == match Meaning(env, locals, segments) case None => None case Some(text) => Some(Str(text))
  {
    Branches.SubOf(env, k, Str(Body(segments)), fields);
    AllOfWhole(FieldVals(env, k, fields), values);
    SubstituteIsMeaning(env, Zip(fields, values), locals, segments);
  }

  lemma {:induction false} AllOfWhole(rs: seq<Resolved>, values: seq<Node>)
    requires |rs| == |values| && forall i :: 0 <= i < |rs| ==> rs[i] == Some(values[i])
    ensures AllOf(rs) == Some(values)
  {
    if rs != [] {
      AllOfWhole(rs[..|rs| - 1], values[..|rs| - 1]);
      assert values == values[..|rs| - 1] + [values[|rs| - 1]];
    }
  }

  lemma SubTextOf(env: Env, k: Knowledge, body: string)
    ensures Val(env, k, Intrinsic1("Fn::Sub", Str(body))) == Sub(env, body, [], Some([]))
    ensures Sub(env, body, [], Some([])) ==
            match Substitute(env, [], body) case None => None case Some(text) => Some(Str(text))
  {
    assert "Fn::Sub"[..4] == "Fn::";
    var none: seq<Node> := [];
    assert Zip([], none) == [];
  }

  function Intrinsic1(key: string, arg: Node): Node {
    Map([Field(key, arg)])
  }

  lemma Base64Law(env: Env, k: Knowledge, text: string)
    ensures Val(env, k, Intrinsic1("Fn::Base64", Str(text))) == Some(Str(env.prims.base64(text)))
  {
    assert "Fn::Base64"[..4] == "Fn::";
    var node := Intrinsic1("Fn::Base64", Str(text));
    assert IsIntrinsicKey("Fn::Base64") && !NeverResolved("Fn::Base64") && !IsBooleanOperator("Fn::Base64");
    assert Val(env, k, Str(text)) == Some(Str(text));
    assert Val(env, k, node) == Apply(env, k, "Fn::Base64", Str(text), node);
  }
}
