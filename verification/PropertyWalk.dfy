/** The lenient walk over a resource's properties (src/resolver/resolver.py:226-301): it drops
    what does not resolve and records the outcome of every intrinsic in a sink keyed by path.

    Main result: when no two intrinsics share a path, the sink shows an unresolved path exactly when
    strict resolution of the same tree fails; otherwise both give the same value. Keys that are not
    empty and contain neither '.' nor '[' keep paths apart. When paths are shared, a later entry can
    hide an earlier failure, and SinkTellsIff says exactly when. */
module PropertyWalk {
  import opened Templates
  import opened Denotation
  import opened Fixpoints

  datatype Entry = Entry(path: string, outcome: Resolved)

  /** What the walk returns, and what it wrote into the sink, in order. */
  datatype Walked = Walked(value: Resolved, log: seq<Entry>)

  function Decimal(n: nat): string {
    if n < 10 then [Digit(n)] else Decimal(n / 10) + [Digit(n % 10)]
  }

  function FieldPath(path: string, key: string): string {
    if path == "" then key else path + "." + key
  }

  function ItemPath(path: string, index: nat): string {
    path + "[" + Decimal(index) + "]"
  }

  function Walk(env: Env, k: Knowledge, node: Node, path: string): Walked
    decreases node, 1
  {
    match node
    case Map(fields) =>
      if |fields| == 1 && IsIntrinsicKey(fields[0].key) then
        var r := Apply(env, k, fields[0].key, fields[0].node, node);
        Walked(r, [Entry(if path == "" then "$" else path, r)])
      else
        var (kept, log) := WalkFields(env, k, fields, path);
        Walked(Some(Map(kept)), log)
    case List(items) =>
      var (kept, log) := WalkItems(env, k, items, path, 0);
      Walked(Some(List(kept)), log)
    case _ => Walked(Some(node), [])
  }

  function WalkFields(env: Env, k: Knowledge, fields: seq<Field>, path: string): (seq<Field>, seq<Entry>)
    decreases fields, 0
  {
    if fields == [] then ([], [])
    else
      var child := Walk(env, k, fields[0].node, FieldPath(path, fields[0].key));
      var (kept, log) := WalkFields(env, k, fields[1..], path);
      (if child.value.Some? && !child.value.value.NoValue?
       then [Field(fields[0].key, child.value.value)] + kept else kept,
       child.log + log)
  }

  function WalkItems(env: Env, k: Knowledge, items: seq<Node>, path: string, index: nat): (seq<Node>, seq<Entry>)
    decreases items, 0
  {
    if items == [] then ([], [])
    else
      var child := Walk(env, k, items[0], ItemPath(path, index));
      var (kept, log) := WalkItems(env, k, items[1..], path, index + 1);
      (if child.value.Some? && !child.value.value.NoValue? then [child.value.value] + kept else kept,
       child.log + log)
  }

  // -- the log against strict resolution -------------------------------------------------

  predicate AllResolved(log: seq<Entry>) {
    forall e :: e in log ==> e.outcome.Some?
  }

  /** Keep, read from the front. */
  lemma {:induction false} KeepCons(head: Resolved, tail: seq<Resolved>)
    ensures Keep([head] + tail) ==
            if head.None? || Keep(tail).None? then None
            else if head.value.NoValue? then Keep(tail)
            else Some([head.value] + Keep(tail).value)
    decreases |tail|
  {
    var all := [head] + tail;
    if tail == [] {
      assert all[..0] == [] && all[|all| - 1] == head;
      if head.Some? {
        assert [] + [head.value] == [head.value] + [];
      }
    } else {
      assert all[..|all| - 1] == [head] + tail[..|tail| - 1];
      assert all[|all| - 1] == tail[|tail| - 1];
      KeepCons(head, tail[..|tail| - 1]);
      if head.Some? && Keep(tail).Some? {
        var front := Keep(tail[..|tail| - 1]).value;
        var last := tail[|tail| - 1].value;
        assert [head.value] + (front + [last]) == ([head.value] + front) + [last];
      }
    }
  }

  lemma {:induction false} KeepFieldsCons(key: string, head: Resolved, keys: seq<string>, tail: seq<Resolved>)
    requires |keys| == |tail|
    ensures KeepFields([key] + keys, [head] + tail) ==
            if head.None? || KeepFields(keys, tail).None? then None
            else if head.value.NoValue? then KeepFields(keys, tail)
            else Some([Field(key, head.value)] + KeepFields(keys, tail).value)
    decreases |tail|
  {
    var all, allKeys := [head] + tail, [key] + keys;
    if tail == [] {
      assert all[..0] == [] && allKeys[..0] == [] && all[|all| - 1] == head && allKeys[|all| - 1] == key;
      if head.Some? {
        var first := Field(key, head.value);
        assert [] + [first] == [first] + [];
      }
    } else {
      var n := |tail| - 1;
      assert all[..|all| - 1] == [head] + tail[..n] && allKeys[..|all| - 1] == [key] + keys[..n];
      assert all[|all| - 1] == tail[n] && allKeys[|all| - 1] == keys[n];
      KeepFieldsCons(key, head, keys[..n], tail[..n]);
      if head.Some? && KeepFields(keys, tail).Some? {
        var first, front := Field(key, head.value), KeepFields(keys[..n], tail[..n]).value;
        var last := Field(keys[n], tail[n].value);
        assert [first] + (front + [last]) == ([first] + front) + [last];
      }
    }
  }

  lemma AllResolvedSplit(a: seq<Entry>, b: seq<Entry>)
    ensures AllResolved(a + b) <==> AllResolved(a) && AllResolved(b)
  {
    assert forall e :: e in a + b <==> e in a || e in b;
  }

  lemma {:induction false} WalkIsStrict(env: Env, k: Knowledge, node: Node, path: string)
    ensures var w := Walk(env, k, node, path);
            && (Val(env, k, node).Some? <==> AllResolved(w.log))
            && (AllResolved(w.log) ==> w.value == Val(env, k, node))
    decreases node, 1
  {
    match node
    case Map(fields) =>
      if !(|fields| == 1 && IsIntrinsicKey(fields[0].key)) {
        WalkFieldsIsStrict(env, k, fields, path);
      }
    case List(items) => WalkItemsIsStrict(env, k, items, path, 0);
    case _ =>
  }

  /** Strict resolution of a mapping against what the lenient walk keeps and logs. */
  predicate FieldsAgree(strict: Option<seq<Field>>, walked: (seq<Field>, seq<Entry>)) {
    && (strict.Some? <==> AllResolved(walked.1))
    && (AllResolved(walked.1) ==> strict == Some(walked.0))
  }

  lemma {:induction false} WalkFieldsIsStrict(env: Env, k: Knowledge, fields: seq<Field>, path: string)
    ensures FieldsAgree(KeepFields(Keys(fields), FieldVals(env, k, fields)), WalkFields(env, k, fields, path))
    decreases fields, 0
  {
    if fields != [] {
      var p := FieldPath(path, fields[0].key);
      WalkIsStrict(env, k, fields[0].node, p);
      WalkFieldsIsStrict(env, k, fields[1..], path);
      FieldsUnfold(env, k, fields, path);
      FieldsAgreeNext(fields[0].key, Val(env, k, fields[0].node), Walk(env, k, fields[0].node, p),
                      Keys(fields[1..]), FieldVals(env, k, fields[1..]), WalkFields(env, k, fields[1..], path));
    }
  }

  function AddField(key: string, w: Walked, walked: (seq<Field>, seq<Entry>)): (seq<Field>, seq<Entry>) {
    (if w.value.Some? && !w.value.value.NoValue? then [Field(key, w.value.value)] + walked.0 else walked.0,
     w.log + walked.1)
  }

  lemma FieldsUnfold(env: Env, k: Knowledge, fields: seq<Field>, path: string)
    requires fields != []
    ensures var key, node, rest := fields[0].key, fields[0].node, fields[1..];
            && WalkFields(env, k, fields, path) ==
               AddField(key, Walk(env, k, node, FieldPath(path, key)), WalkFields(env, k, rest, path))
            && KeepFields(Keys(fields), FieldVals(env, k, fields)) ==
               KeepFields([key] + Keys(rest), [Val(env, k, node)] + FieldVals(env, k, rest))
  {
    assert Keys(fields) == [fields[0].key] + Keys(fields[1..]);
  }

  lemma FieldsAgreeNext(key: string, head: Resolved, w: Walked, keys: seq<string>, tail: seq<Resolved>,
                        walked: (seq<Field>, seq<Entry>))
    requires (head.Some? <==> AllResolved(w.log)) && (AllResolved(w.log) ==> w.value == head)
    requires |keys| == |tail| && FieldsAgree(KeepFields(keys, tail), walked)
    ensures FieldsAgree(KeepFields([key] + keys, [head] + tail), AddField(key, w, walked))
  {
    AllResolvedSplit(w.log, walked.1);
    KeepFieldsCons(key, head, keys, tail);
  }

  lemma {:induction false} WalkItemsIsStrict(env: Env, k: Knowledge, items: seq<Node>, path: string, index: nat)
    ensures var (kept, log) := WalkItems(env, k, items, path, index);
            var strict := Keep(Vals(env, k, items));
            && (strict.Some? <==> AllResolved(log))
            && (AllResolved(log) ==> strict == Some(kept))
    decreases items, 0
  {
    if items != [] {
      var p := ItemPath(path, index);
      WalkIsStrict(env, k, items[0], p);
      WalkItemsIsStrict(env, k, items[1..], path, index + 1);
      AllResolvedSplit(Walk(env, k, items[0], p).log, WalkItems(env, k, items[1..], path, index + 1).1);
      KeepCons(Val(env, k, items[0]), Vals(env, k, items[1..]));
    }
  }

  // -- paths are unambiguous --------------------------------------------------------------

  predicate PlainKey(key: string) {
    key != "" && '.' !in key && '[' !in key
  }

  /** A tree whose mapping keys are plain and, as in any mapping, pairwise different. */
  predicate PlainTree(node: Node)
    decreases node, 1
  {
    match node
    case Map(fields) => PlainFields(fields)
    case List(items) => PlainItems(items)
    case _ => true
  }

  predicate PlainFields(fields: seq<Field>)
    decreases fields, 0
  {
    fields != [] ==>
      && PlainKey(fields[0].key) && fields[0].key !in Keys(fields[1..])
      && PlainTree(fields[0].node) && PlainFields(fields[1..])
  }

  predicate PlainItems(items: seq<Node>)
    decreases items, 0
  {
    items != [] ==> PlainTree(items[0]) && PlainItems(items[1..])
  }

  function Parse(s: string): int {
    if s == "" then 0 else Parse(s[..|s| - 1]) * 10 + (s[|s| - 1] as int - '0' as int)
  }

  lemma DigitValue(d: nat)
    requires d < 10
    ensures Digit(d) as int - '0' as int == d && Digit(d) != ']'
  {
  }

  lemma ParseSnoc(s: string, c: char)
    ensures Parse(s + [c]) == Parse(s) * 10 + (c as int - '0' as int)
  {
    assert (s + [c])[..|s|] == s;
  }

  lemma {:induction false} ParseDecimal(n: nat)
    ensures Parse(Decimal(n)) == n && ']' !in Decimal(n)
  {
    DigitValue(n % 10);
    if n < 10 {
      ParseSnoc("", Digit(n));
      assert [] + [Digit(n)] == [Digit(n)];
    } else {
      ParseDecimal(n / 10);
      ParseSnoc(Decimal(n / 10), Digit(n % 10));
    }
  }

  /** Nothing, or something that starts with one of the given characters. */
  predicate Follows(rest: string, stops: set<char>) {
    rest == "" || rest[0] in stops
  }

  predicate FreeOf(s: string, stops: set<char>) {
    forall c :: c in s ==> c !in stops
  }

  /** Length of the part of `s` before the first stop character. */
  function TokenLength(s: string, stops: set<char>): nat {
    if s == "" || s[0] in stops then 0 else 1 + TokenLength(s[1..], stops)
  }

  lemma {:induction false} TokenOf(u: string, x: string, stops: set<char>)
    requires FreeOf(u, stops) && Follows(x, stops)
    ensures TokenLength(u + x, stops) == |u|
  {
    if u == "" {
      assert u + x == x;
    } else {
      assert (u + x)[1..] == u[1..] + x;
      assert u[0] in u;
      TokenOf(u[1..], x, stops);
    }
  }

  lemma SameToken(u: string, x: string, v: string, y: string, stops: set<char>)
    requires u + x == v + y
    requires FreeOf(u, stops) && FreeOf(v, stops) && Follows(x, stops) && Follows(y, stops)
    ensures u == v
  {
    TokenOf(u, x, stops);
    TokenOf(v, y, stops);
    assert u == (u + x)[..|u|] && v == (v + y)[..|v|];
  }

  /** `p` is `path` or the path of something inside it. */
  predicate Under(path: string, p: string) {
    StartsWith(p, path) && Follows(p[|path|..], {'.', '['})
  }

  lemma UnderTransitive(a: string, b: string, c: string)
    requires Under(a, b) && Under(b, c) && a != ""
    ensures Under(a, c)
  {
    assert c[..|a|] == c[..|b|][..|a|];
    if |b| > |a| {
      assert c[|a|] == c[..|b|][|a|];
    }
  }

  lemma FieldsApart(path: string, k1: string, k2: string, p: string)
    requires PlainKey(k1) && PlainKey(k2)
    requires Under(FieldPath(path, k1), p) && Under(FieldPath(path, k2), p)
    ensures k1 == k2
  {
    var base := if path == "" then "" else path + ".";
    var f1, f2 := FieldPath(path, k1), FieldPath(path, k2);
    var tail := p[|base|..];
    assert f1 == base + k1 && f2 == base + k2;
    assert p == f1 + p[|f1|..] && p == f2 + p[|f2|..];
    assert tail == k1 + p[|f1|..] && tail == k2 + p[|f2|..];
    SameToken(k1, p[|f1|..], k2, p[|f2|..], {'.', '['});
  }

  lemma ItemsApart(path: string, i: nat, j: nat, p: string)
    requires Under(ItemPath(path, i), p) && Under(ItemPath(path, j), p)
    ensures i == j
  {
    var f1, f2 := ItemPath(path, i), ItemPath(path, j);
    var base := path + "[";
    var x1, x2 := "]" + p[|f1|..], "]" + p[|f2|..];
    assert p == f1 + p[|f1|..] && p == f2 + p[|f2|..];
    assert p[|base|..] == Decimal(i) + x1 && p[|base|..] == Decimal(j) + x2;
    ParseDecimal(i);
    ParseDecimal(j);
    SameToken(Decimal(i), x1, Decimal(j), x2, {']'});
  }

  ghost predicate DistinctPaths(log: seq<Entry>) {
    forall i, j :: 0 <= i < j < |log| ==> log[i].path != log[j].path
  }

  lemma DistinctConcat(a: seq<Entry>, b: seq<Entry>)
    requires DistinctPaths(a) && DistinctPaths(b)
    requires forall e, f :: e in a && f in b ==> e.path != f.path
    ensures DistinctPaths(a + b)
  {
    forall i, j | 0 <= i < j < |a + b|
      ensures (a + b)[i].path != (a + b)[j].path
    {
      if i < |a| <= j {
        assert a[i] in a && b[j - |a|] in b;
      }
    }
  }

  lemma {:induction false} WalkDistinct(env: Env, k: Knowledge, node: Node, path: string)
    requires PlainTree(node)
    ensures var log := Walk(env, k, node, path).log;
            DistinctPaths(log) && (path != "" ==> forall e :: e in log ==> Under(path, e.path))
    decreases node, 1
  {
    match node
    case Map(fields) =>
      if !(|fields| == 1 && IsIntrinsicKey(fields[0].key)) {
        WalkFieldsDistinct(env, k, fields, path);
        forall e | path != "" && e in WalkFields(env, k, fields, path).1
          ensures Under(path, e.path)
        {
          var i :| 0 <= i < |fields| && Under(FieldPath(path, fields[i].key), e.path);
          UnderTransitive(path, FieldPath(path, fields[i].key), e.path);
        }
      }
    case List(items) =>
      WalkItemsDistinct(env, k, items, path, 0);
      forall e | path != "" && e in WalkItems(env, k, items, path, 0).1
        ensures Under(path, e.path)
      {
        var i: nat :| Under(ItemPath(path, i), e.path);
        UnderTransitive(path, ItemPath(path, i), e.path);
      }
    case _ =>
  }

  lemma {:induction false} WalkFieldsDistinct(env: Env, k: Knowledge, fields: seq<Field>, path: string)
    requires PlainFields(fields)
    ensures var log := WalkFields(env, k, fields, path).1;
            && DistinctPaths(log)
            && forall e :: e in log ==> exists i :: 0 <= i < |fields| && Under(FieldPath(path, fields[i].key), e.path)
    decreases fields, 0
  {
    if fields != [] {
      var p := FieldPath(path, fields[0].key);
      var head, rest := Walk(env, k, fields[0].node, p).log, WalkFields(env, k, fields[1..], path).1;
      WalkDistinct(env, k, fields[0].node, p);
      WalkFieldsDistinct(env, k, fields[1..], path);
      forall f | f in rest
        ensures exists i :: 1 <= i < |fields| && Under(FieldPath(path, fields[i].key), f.path)
      {
        var i :| 0 <= i < |fields[1..]| && Under(FieldPath(path, fields[1..][i].key), f.path);
        assert fields[i + 1] == fields[1..][i];
      }
      forall e, f | e in head && f in rest
        ensures e.path != f.path
      {
        if e.path == f.path {
          var i :| 1 <= i < |fields| && Under(FieldPath(path, fields[i].key), f.path);
          PlainFieldAt(fields, i);
          assert fields[i].key == Keys(fields[1..])[i - 1];
          FieldsApart(path, fields[0].key, fields[i].key, f.path);
        }
      }
      DistinctConcat(head, rest);
    }
  }

  lemma {:induction false} PlainFieldAt(fields: seq<Field>, i: nat)
    requires PlainFields(fields) && i < |fields|
    ensures PlainKey(fields[i].key)
    decreases i
  {
    if i > 0 {
      PlainFieldAt(fields[1..], i - 1);
    }
  }

  lemma {:induction false} WalkItemsDistinct(env: Env, k: Knowledge, items: seq<Node>, path: string, index: nat)
    requires PlainItems(items)
    ensures var log := WalkItems(env, k, items, path, index).1;
            && DistinctPaths(log)
            && forall e :: e in log ==> exists i: nat :: index <= i && Under(ItemPath(path, i), e.path)
    decreases items, 0
  {
    if items != [] {
      var p := ItemPath(path, index);
      var head, rest := Walk(env, k, items[0], p).log, WalkItems(env, k, items[1..], path, index + 1).1;
      WalkDistinct(env, k, items[0], p);
      WalkItemsDistinct(env, k, items[1..], path, index + 1);
      forall e, f | e in head && f in rest
        ensures e.path != f.path
      {
        if e.path == f.path {
          var i: nat :| index + 1 <= i && Under(ItemPath(path, i), f.path);
          ItemsApart(path, index, i, f.path);
        }
      }
      DistinctConcat(head, rest);
    }
  }

  // -- the sink ---------------------------------------------------------------------------

  /** The dictionary the log leaves behind: a later entry replaces an earlier one. */
  function Sink(log: seq<Entry>): map<string, Resolved> {
    if log == [] then map[]
    else Sink(log[..|log| - 1])[log[|log| - 1].path := log[|log| - 1].outcome]
  }

  predicate NothingUnresolved(sink: map<string, Resolved>) {
    forall p :: p in sink ==> sink[p].Some?
  }

  /** No later entry of the log replaces this one. */
  predicate Shown(log: seq<Entry>, i: nat) {
    i < |log| && forall j :: i < j < |log| ==> log[j].path != log[i].path
  }

  lemma {:induction false} SinkHolds(log: seq<Entry>, i: nat)
    requires Shown(log, i)
    ensures log[i].path in Sink(log) && Sink(log)[log[i].path] == log[i].outcome
    decreases |log|
  {
    var n := |log| - 1;
    if i < n {
      assert log[n].path != log[i].path && Shown(log[..n], i);
      SinkHolds(log[..n], i);
    }
  }

  lemma {:induction false} SinkShows(log: seq<Entry>, p: string) returns (i: nat)
    requires p in Sink(log)
    ensures Shown(log, i) && log[i] == Entry(p, Sink(log)[p])
    decreases |log|
  {
    var n := |log| - 1;
    if p == log[n].path {
      i := n;
    } else {
      i := SinkShows(log[..n], p);
    }
  }

  /** Some entry of the log is unresolved, and each of these is replaced by a later one. */
  ghost predicate FailuresHidden(log: seq<Entry>) {
    !AllResolved(log) && forall i: nat :: Shown(log, i) ==> log[i].outcome.Some?
  }

  lemma CleanSinkIff(log: seq<Entry>)
    ensures NothingUnresolved(Sink(log)) <==> AllResolved(log) || FailuresHidden(log)
  {
    if NothingUnresolved(Sink(log)) {
      forall i: nat | Shown(log, i)
        ensures log[i].outcome.Some?
      {
        SinkHolds(log, i);
      }
    } else {
      var p :| p in Sink(log) && Sink(log)[p].None?;
      var i := SinkShows(log, p);
      assert log[i] in log;
    }
  }

  /** The sink tells whether strict resolution of the tree succeeds unless every failure is hidden by
      a later entry for the same path, and exactly then it is wrong. */
  lemma SinkTellsIff(env: Env, k: Knowledge, node: Node)
    ensures var w := Walk(env, k, node, "");
            (Val(env, k, node).Some? <==> NothingUnresolved(Sink(w.log))) <==> !FailuresHidden(w.log)
  {
    WalkIsStrict(env, k, node, "");
    CleanSinkIff(Walk(env, k, node, "").log);
  }

  lemma DistinctHidesNothing(log: seq<Entry>)
    requires DistinctPaths(log)
    ensures !FailuresHidden(log)
  {
    if e :| e in log && e.outcome.None? {
      var i: nat :| i < |log| && log[i] == e;
      assert Shown(log, i);
    }
  }

  /** When no two intrinsics of a property tree have the same path, strict resolution succeeds exactly
      when the lenient walk leaves no unresolved path, and then they agree. */
  lemma StrictIffNothingUnresolved(env: Env, k: Knowledge, node: Node)
    requires DistinctPaths(Walk(env, k, node, "").log)
    ensures var w := Walk(env, k, node, "");
            && (Val(env, k, node).Some? <==> NothingUnresolved(Sink(w.log)))
            && (NothingUnresolved(Sink(w.log)) ==> w.value == Val(env, k, node))
  {
    var w := Walk(env, k, node, "");
    WalkIsStrict(env, k, node, "");
    DistinctHidesNothing(w.log);
    CleanSinkIff(w.log);
  }

  /** In particular when the keys of every mapping are plain. */
  lemma PlainTreesTell(env: Env, k: Knowledge, node: Node)
    requires PlainTree(node)
    ensures var w := Walk(env, k, node, "");
            && (Val(env, k, node).Some? <==> NothingUnresolved(Sink(w.log)))
            && (NothingUnresolved(Sink(w.log)) ==> w.value == Val(env, k, node))
  {
    WalkDistinct(env, k, node, "");
    StrictIffNothingUnresolved(env, k, node);
  }

  // -- the paths are a matter of the tree alone -------------------------------------------------

  function PathsOf(log: seq<Entry>): seq<string> {
    seq(|log|, i requires 0 <= i < |log| => log[i].path)
  }

  /** Whether paths coincide does not depend on the conditions, the parameters or the mappings. */
  lemma {:induction false} PathsAreSyntactic(env: Env, k: Knowledge, env': Env, k': Knowledge, node: Node, path: string)
    ensures PathsOf(Walk(env, k, node, path).log) == PathsOf(Walk(env', k', node, path).log)
    decreases node, 1
  {
    match node
    case Map(fields) =>
      if !(|fields| == 1 && IsIntrinsicKey(fields[0].key)) {
        FieldPathsAreSyntactic(env, k, env', k', fields, path);
      }
    case List(items) => ItemPathsAreSyntactic(env, k, env', k', items, path, 0);
    case _ =>
  }

  lemma {:induction false} FieldPathsAreSyntactic(env: Env, k: Knowledge, env': Env, k': Knowledge,
                                                  fields: seq<Field>, path: string)
    ensures PathsOf(WalkFields(env, k, fields, path).1) == PathsOf(WalkFields(env', k', fields, path).1)
    decreases fields, 0
  {
    if fields != [] {
      var p := FieldPath(path, fields[0].key);
      PathsAreSyntactic(env, k, env', k', fields[0].node, p);
      FieldPathsAreSyntactic(env, k, env', k', fields[1..], path);
      PathsConcat(Walk(env, k, fields[0].node, p).log, WalkFields(env, k, fields[1..], path).1);
      PathsConcat(Walk(env', k', fields[0].node, p).log, WalkFields(env', k', fields[1..], path).1);
    }
  }

  lemma {:induction false} ItemPathsAreSyntactic(env: Env, k: Knowledge, env': Env, k': Knowledge,
                                                 items: seq<Node>, path: string, index: nat)
    ensures PathsOf(WalkItems(env, k, items, path, index).1) == PathsOf(WalkItems(env', k', items, path, index).1)
    decreases items, 0
  {
    if items != [] {
      var p := ItemPath(path, index);
      PathsAreSyntactic(env, k, env', k', items[0], p);
      ItemPathsAreSyntactic(env, k, env', k', items[1..], path, index + 1);
      PathsConcat(Walk(env, k, items[0], p).log, WalkItems(env, k, items[1..], path, index + 1).1);
      PathsConcat(Walk(env', k', items[0], p).log, WalkItems(env', k', items[1..], path, index + 1).1);
    }
  }

  lemma PathsConcat(a: seq<Entry>, b: seq<Entry>)
    ensures PathsOf(a + b) == PathsOf(a) + PathsOf(b)
  {
  }

  // -- walks that resolve less ------------------------------------------------------------------

  /** b, possibly without some of the members of its mappings and lists. */
  predicate Pruned(a: Node, b: Node)
    decreases b, 1
  {
    || a == b
    || (a.Map? && b.Map? && PrunedFields(a.fields, b.fields))
    || (a.List? && b.List? && PrunedItems(a.items, b.items))
  }

  predicate PrunedFields(a: seq<Field>, b: seq<Field>)
    decreases b, 0
  {
    if b == [] then a == []
    else
      var n, last := |a| - 1, b[|b| - 1];
      || PrunedFields(a, b[..|b| - 1])
      || (a != [] && a[n].key == last.key && Pruned(a[n].node, last.node) && PrunedFields(a[..n], b[..|b| - 1]))
  }

  predicate PrunedItems(a: seq<Node>, b: seq<Node>)
    decreases b, 0
  {
    if b == [] then a == []
    else
      var n := |a| - 1;
      || PrunedItems(a, b[..|b| - 1])
      || (a != [] && Pruned(a[n], b[|b| - 1]) && PrunedItems(a[..n], b[..|b| - 1]))
  }

  /** The same intrinsics at the same paths, each unresolved or with the same value. */
  predicate LogBelow(log: seq<Entry>, full: seq<Entry>) {
    |log| == |full| && forall i :: 0 <= i < |log| ==>
        log[i].path == full[i].path && Leq(log[i].outcome, full[i].outcome)
  }

  /** A walk against one that resolves at least as much: only members that did not resolve are missing. */
  predicate WalkBelow(value: Resolved, log: seq<Entry>, w: Walked) {
    && LogBelow(log, w.log)
    && (value.Some? ==> w.value.Some? && Pruned(value.value, w.value.value))
    && (log == w.log ==> value == w.value)
  }

  predicate FieldsBelow(kept: seq<Field>, log: seq<Entry>, w: (seq<Field>, seq<Entry>)) {
    LogBelow(log, w.1) && PrunedFields(kept, w.0) && (log == w.1 ==> kept == w.0)
  }

  predicate ItemsBelow(kept: seq<Node>, log: seq<Entry>, w: (seq<Node>, seq<Entry>)) {
    LogBelow(log, w.1) && PrunedItems(kept, w.0) && (log == w.1 ==> kept == w.0)
  }

  lemma LogBelowConcat(a: seq<Entry>, fullA: seq<Entry>, b: seq<Entry>, fullB: seq<Entry>)
    requires LogBelow(a, fullA) && LogBelow(b, fullB)
    ensures LogBelow(a + b, fullA + fullB)
    ensures a + b == fullA + fullB <==> a == fullA && b == fullB
  {
    if a + b == fullA + fullB {
      assert a == (a + b)[..|a|] && b == (a + b)[|a|..];
      assert fullA == (fullA + fullB)[..|a|] && fullB == (fullA + fullB)[|a|..];
    }
  }

  function KeepField(key: string, r: Resolved): seq<Field> {
    if r.Some? && !r.value.NoValue? then [Field(key, r.value)] else []
  }

  function KeepItem(r: Resolved): seq<Node> {
    if r.Some? && !r.value.NoValue? then [r.value] else []
  }

  // The walks of the members, one by one, and what they add up to from the first on.

  function FieldWalks(env: Env, k: Knowledge, fields: seq<Field>, path: string): (ws: seq<Walked>)
    ensures |ws| == |fields|
    ensures forall i :: 0 <= i < |ws| ==> ws[i] == Walk(env, k, fields[i].node, FieldPath(path, fields[i].key))
  {
    seq(|fields|, i requires 0 <= i < |fields| => Walk(env, k, fields[i].node, FieldPath(path, fields[i].key)))
  }

  function ItemWalks(env: Env, k: Knowledge, items: seq<Node>, path: string, index: nat): (ws: seq<Walked>)
    ensures |ws| == |items|
    ensures forall i :: 0 <= i < |ws| ==> ws[i] == Walk(env, k, items[i], ItemPath(path, index + i))
  {
    seq(|items|, i requires 0 <= i < |items| => Walk(env, k, items[i], ItemPath(path, index + i)))
  }

  function FoldFields(keys: seq<string>, ws: seq<Walked>): (seq<Field>, seq<Entry>)
    requires |keys| == |ws|
  {
    if ws == [] then ([], [])
    else
      var n := |ws| - 1;
      var (kept, log) := FoldFields(keys[..n], ws[..n]);
      (kept + KeepField(keys[n], ws[n].value), log + ws[n].log)
  }

  function FoldItems(ws: seq<Walked>): (seq<Node>, seq<Entry>) {
    if ws == [] then ([], [])
    else
      var n := |ws| - 1;
      var (kept, log) := FoldItems(ws[..n]);
      (kept + KeepItem(ws[n].value), log + ws[n].log)
  }

  lemma {:induction false} FoldFieldsCons(key: string, w: Walked, keys: seq<string>, ws: seq<Walked>)
    requires |keys| == |ws|
    ensures var (kept, log) := FoldFields(keys, ws);
            FoldFields([key] + keys, [w] + ws) == (KeepField(key, w.value) + kept, w.log + log)
    decreases |ws|
  {
    var allKeys, all, n := [key] + keys, [w] + ws, |ws|;
    if ws == [] {
      assert all[..0] == [] && allKeys[..0] == [] && all[0] == w && allKeys[0] == key;
      assert [] + KeepField(key, w.value) == KeepField(key, w.value) + [] && [] + w.log == w.log + [];
    } else {
      FoldFieldsCons(key, w, keys[..n - 1], ws[..n - 1]);
      assert all[..n] == [w] + ws[..n - 1] && allKeys[..n] == [key] + keys[..n - 1];
      assert all[n] == ws[n - 1] && allKeys[n] == keys[n - 1];
      var (kept, log) := FoldFields(keys[..n - 1], ws[..n - 1]);
      var k1, k2 := KeepField(key, w.value), KeepField(keys[n - 1], ws[n - 1].value);
      assert (k1 + kept) + k2 == k1 + (kept + k2);
      assert (w.log + log) + ws[n - 1].log == w.log + (log + ws[n - 1].log);
    }
  }

  lemma {:induction false} FoldItemsCons(w: Walked, ws: seq<Walked>)
    ensures var (kept, log) := FoldItems(ws);
            FoldItems([w] + ws) == (KeepItem(w.value) + kept, w.log + log)
    decreases |ws|
  {
    var all, n := [w] + ws, |ws|;
    if ws == [] {
      assert all[..0] == [] && all[0] == w;
      assert [] + KeepItem(w.value) == KeepItem(w.value) + [] && [] + w.log == w.log + [];
    } else {
      FoldItemsCons(w, ws[..n - 1]);
      assert all[..n] == [w] + ws[..n - 1] && all[n] == ws[n - 1];
      var (kept, log) := FoldItems(ws[..n - 1]);
      var k1, k2 := KeepItem(w.value), KeepItem(ws[n - 1].value);
      assert (k1 + kept) + k2 == k1 + (kept + k2);
      assert (w.log + log) + ws[n - 1].log == w.log + (log + ws[n - 1].log);
    }
  }

  lemma FieldWalksCons(env: Env, k: Knowledge, fields: seq<Field>, path: string)
    requires fields != []
    ensures Keys(fields) == [fields[0].key] + Keys(fields[1..])
    ensures FieldWalks(env, k, fields, path) ==
            [Walk(env, k, fields[0].node, FieldPath(path, fields[0].key))] + FieldWalks(env, k, fields[1..], path)
  {
  }

  lemma AddFieldKeeps(key: string, w: Walked, walked: (seq<Field>, seq<Entry>))
    ensures AddField(key, w, walked) == (KeepField(key, w.value) + walked.0, w.log + walked.1)
  {
    assert [] + walked.0 == walked.0;
  }

  lemma {:induction false} WalkFieldsIsFold(env: Env, k: Knowledge, fields: seq<Field>, path: string)
    ensures WalkFields(env, k, fields, path) == FoldFields(Keys(fields), FieldWalks(env, k, fields, path))
  {
    if fields == [] {
      assert WalkFields(env, k, fields, path) == ([], []);
    } else {
      var key, w := fields[0].key, Walk(env, k, fields[0].node, FieldPath(path, fields[0].key));
      var keys, ws := Keys(fields[1..]), FieldWalks(env, k, fields[1..], path);
      WalkFieldsIsFold(env, k, fields[1..], path);
      FieldsUnfold(env, k, fields, path);
      AddFieldKeeps(key, w, FoldFields(keys, ws));
      FoldFieldsCons(key, w, keys, ws);
      FieldWalksCons(env, k, fields, path);
    }
  }

  lemma ItemsUnfold(env: Env, k: Knowledge, items: seq<Node>, path: string, index: nat)
    requires items != []
    ensures var w, (kept, log) := Walk(env, k, items[0], ItemPath(path, index)),
        WalkItems(env, k, items[1..], path, index + 1);
            WalkItems(env, k, items, path, index) == (KeepItem(w.value) + kept, w.log + log)
  {
    var kept := WalkItems(env, k, items[1..], path, index + 1).0;
    assert [] + kept == kept;
  }

  lemma ItemWalksCons(env: Env, k: Knowledge, items: seq<Node>, path: string, index: nat)
    requires items != []
    ensures ItemWalks(env, k, items, path, index) ==
            [Walk(env, k, items[0], ItemPath(path, index))] + ItemWalks(env, k, items[1..], path, index + 1)
  {
  }

  lemma {:induction false} WalkItemsIsFold(env: Env, k: Knowledge, items: seq<Node>, path: string, index: nat)
    ensures WalkItems(env, k, items, path, index) == FoldItems(ItemWalks(env, k, items, path, index))
    decreases |items|
  {
    if items == [] {
      assert WalkItems(env, k, items, path, index) == ([], []);
    } else {
      WalkItemsIsFold(env, k, items[1..], path, index + 1);
      ItemsUnfold(env, k, items, path, index);
      FoldItemsCons(Walk(env, k, items[0], ItemPath(path, index)), ItemWalks(env, k, items[1..], path, index + 1));
      ItemWalksCons(env, k, items, path, index);
    }
  }

  lemma FieldsBelowNext(kept: seq<Field>, log: seq<Entry>, keys: seq<string>, ws: seq<Walked>, i: nat,
                        value: Resolved, more: seq<Entry>)
    requires i < |keys| == |ws| && FieldsBelow(kept, log, FoldFields(keys[..i], ws[..i]))
    requires WalkBelow(value, more, ws[i])
    ensures FieldsBelow(kept + KeepField(keys[i], value), log + more, FoldFields(keys[..i + 1], ws[..i + 1]))
    ensures log == FoldFields(keys[..i], ws[..i]).1 && more == ws[i].log ==>
              log + more == FoldFields(keys[..i + 1], ws[..i + 1]).1
  {
    assert keys[..i + 1][..i] == keys[..i] && ws[..i + 1][..i] == ws[..i];
    var (done, full) := FoldFields(keys[..i], ws[..i]);
    LogBelowConcat(log, full, more, ws[i].log);
    KeptFieldBelow(kept, done, keys[i], value, ws[i].value);
  }

  lemma KeptFieldBelow(kept: seq<Field>, done: seq<Field>, key: string, value: Resolved, full: Resolved)
    requires PrunedFields(kept, done) && (value.Some? ==> full.Some? && Pruned(value.value, full.value))
    ensures PrunedFields(kept + KeepField(key, value), done + KeepField(key, full))
  {
    if KeepField(key, full) == [] {
      assert KeepField(key, value) == [] && done + [] == done && kept + [] == kept;
    } else {
      assert (done + [Field(key, full.value)])[..|done|] == done;
      if KeepField(key, value) == [] {
        assert kept + [] == kept;
      } else {
        assert (kept + [Field(key, value.value)])[..|kept|] == kept;
      }
    }
  }

  lemma ItemsBelowNext(kept: seq<Node>, log: seq<Entry>, ws: seq<Walked>, i: nat, value: Resolved, more: seq<Entry>)
    requires i < |ws| && ItemsBelow(kept, log, FoldItems(ws[..i])) && WalkBelow(value, more, ws[i])
    ensures ItemsBelow(kept + KeepItem(value), log + more, FoldItems(ws[..i + 1]))
    ensures log == FoldItems(ws[..i]).1 && more == ws[i].log ==> log + more == FoldItems(ws[..i + 1]).1
  {
    assert ws[..i + 1][..i] == ws[..i];
    var (done, full) := FoldItems(ws[..i]);
    LogBelowConcat(log, full, more, ws[i].log);
    KeptItemBelow(kept, done, value, ws[i].value);
  }

  lemma KeptItemBelow(kept: seq<Node>, done: seq<Node>, value: Resolved, full: Resolved)
    requires PrunedItems(kept, done) && (value.Some? ==> full.Some? && Pruned(value.value, full.value))
    ensures PrunedItems(kept + KeepItem(value), done + KeepItem(full))
  {
    if KeepItem(full) == [] {
      assert KeepItem(value) == [] && done + [] == done && kept + [] == kept;
    } else {
      assert (done + [full.value])[..|done|] == done;
      if KeepItem(value) == [] {
        assert kept + [] == kept;
      } else {
        assert (kept + [value.value])[..|kept|] == kept;
      }
    }
  }

  /** A walk that resolved everything is the full walk, and gives the value of the tree. */
  lemma ResolvedWalkIsStrict(env: Env, k: Knowledge, node: Node, path: string, value: Resolved, log: seq<Entry>)
    requires WalkBelow(value, log, Walk(env, k, node, path)) && AllResolved(log)
    ensures value.Some? && value == Val(env, k, node)
  {
    var w := Walk(env, k, node, path);
    forall i | 0 <= i < |log|
      ensures log[i] == w.log[i]
    {
      assert log[i] in log;
    }
    assert log == w.log;
    WalkIsStrict(env, k, node, path);
  }

  // -- a path that two intrinsics share -------------------------------------------------------

  lemma OneFieldLog(env: Env, k: Knowledge, f: Field, path: string)
    ensures WalkFields(env, k, [f], path).1 == Walk(env, k, f.node, FieldPath(path, f.key)).log
  {
    assert [f][1..] == [];
    assert WalkFields(env, k, [], path).1 == [];
  }

  lemma TwoFieldsLog(env: Env, k: Knowledge, f: Field, g: Field, path: string)
    ensures WalkFields(env, k, [f, g], path).1 ==
            Walk(env, k, f.node, FieldPath(path, f.key)).log + Walk(env, k, g.node, FieldPath(path, g.key)).log
  {
    OneFieldLog(env, k, g, path);
    assert [f, g][1..] == [g] && [f, g][0] == f;
  }

  lemma IntrinsicLog(env: Env, k: Knowledge, key: string, args: Node, path: string)
    requires IsIntrinsicKey(key) && path != ""
    ensures var node := Map([Field(key, args)]);
            Walk(env, k, node, path).log == [Entry(path, Apply(env, k, key, args, node))]
  {
  }

  lemma SinkOverwrites(path: string, first: Resolved, second: Resolved)
    ensures Sink([Entry(path, first), Entry(path, second)]) == map[path := second]
  {
    var e1, e2 := Entry(path, first), Entry(path, second);
    assert [e1, e2][..1] == [e1] && [e1][..0] == [];
    assert Sink([e1]) == map[path := first];
  }

  /** With a shared path the sink can look clean although a property was dropped. */
  lemma DottedKeyHidesFailure(env: Env, k: Knowledge, getAtt: Node, ref: Node)
    requires getAtt == Map([Field("Fn::GetAtt", Str("R.Arn"))])
    requires ref == Map([Field("Ref", Str("P"))]) && RefValue(env, "P").Some?
    ensures var tree := Map([Field("a.b", getAtt), Field("a", Map([Field("b", ref)]))]);
            NothingUnresolved(Sink(Walk(env, k, tree, "").log)) && Val(env, k, tree).None?
  {
    var b := Field("b", ref);
    var f, g := Field("a.b", getAtt), Field("a", Map([b]));
    var outcome := RefValue(env, "P");
    assert "Fn::GetAtt"[..4] == "Fn::";
    IntrinsicLog(env, k, "Fn::GetAtt", Str("R.Arn"), "a.b");
    IntrinsicLog(env, k, "Ref", Str("P"), "a.b");
    NotIntrinsicKey("b");
    OneFieldLog(env, k, b, "a");
    assert FieldPath("a", "b") == "a.b";
    assert Walk(env, k, Map([b]), "a").log == [Entry("a.b", outcome)];
    TwoFieldsLog(env, k, f, g, "");
    var log := [Entry("a.b", None), Entry("a.b", outcome)];
    assert Walk(env, k, Map([f, g]), "").log == log;
    SinkOverwrites("a.b", None, outcome);
    WalkIsStrict(env, k, Map([f, g]), "");
    assert Entry("a.b", None) in log;
  }

  lemma NotIntrinsicKey(key: string)
    requires key != "" && key[0] != 'F' && key != "Ref"
    ensures !IsIntrinsicKey(key)
  {
    if StartsWith(key, "Fn::") {
      StartsWithHead(key, "Fn::");
    }
  }
}
