/** The parsed template and the values it resolves to, with the string rendering and the
    list-to-string functions the intrinsics share (src/resolver/models.py, resolver.py). */
module Templates {
  datatype Option<+T> = None | Some(value: T)

  /** A node of a parsed template, and equally a resolved value.  `Num` keeps the text that
      str() prints and what int() makes of it; `NoValue` is the AWS::NoValue sentinel and only
      ever appears in values. A mapping keeps its insertion order. */
  datatype Node =
    | Null
    | Bool(b: bool)
    | Num(text: string, whole: Option<int>)
    | Str(s: string)
    | List(items: seq<Node>)
    | Map(fields: seq<Field>)
    | NoValue

  datatype Field = Field(key: string, node: Node)

  /** Library code the resolver calls: int() on a string, base64, and str() of a mapping. */
  datatype Prims = Prims(
    parseInt: string -> Option<int>,
    base64: string -> string,
    repr: Node -> string)

  /** Everything a resolver is constructed with. `params` holds the parameters that have a
      value, after defaults and type coercion. */
  datatype Env = Env(
    pseudo: map<string, Node>,
    params: map<string, Node>,
    mappings: Node,
    conditions: map<string, Node>,
    prims: Prims)

  /** A resolution outcome: the value, or None when the source reports it as unresolved. */
  type Resolved = Option<Node>

  /** Whether a resource is created: a false condition excludes it, an unknown one only flags it. */
  datatype Inclusion = INCLUDED | EXCLUDED | UNKNOWN

  function Digit(d: nat): char
    requires d < 10
  {
    "0123456789"[d]
  }

  // -- stringify and Fn::Join ----------------------------------------------

  function JoinWith(delim: string, parts: seq<string>): string
  {
    if |parts| == 0 then ""
    else if |parts| == 1 then parts[0]
    else parts[0] + delim + JoinWith(delim, parts[1..])
  }

  function Stringify(p: Prims, v: Node): string
    decreases v, 1
  {
    match v
    case Null => ""
    case Bool(b) => if b then "true" else "false"
    case Num(text, _) => text
    case Str(s) => s
    case List(items) => JoinWith(",", StringifyAll(p, items))
    case Map(_) => p.repr(v)
    case NoValue => "<AWS::NoValue>"
  }

  function StringifyAll(p: Prims, vs: seq<Node>): (r: seq<string>)
    ensures |r| == |vs|
    ensures forall i :: 0 <= i < |vs| ==> r[i] == Stringify(p, vs[i])
    decreases vs, 0
  {
    if vs == [] then [] else [Stringify(p, vs[0])] + StringifyAll(p, vs[1..])
  }

  // -- Fn::Split -------------------------------------------------------------

  predicate StartsWith(s: string, prefix: string) {
    |prefix| <= |s| && s[..|prefix|] == prefix
  }

  lemma StartsWithHead(s: string, prefix: string)
    requires StartsWith(s, prefix) && prefix != ""
    ensures s != "" && s[0] == prefix[0]
  {
    assert s[..|prefix|][0] == s[0];
  }

  /** Leftmost position of `sep` in `s`, or |s| when it does not occur. */
  function Find(s: string, sep: string): (i: nat)
    ensures i <= |s|
    ensures i < |s| && sep != "" ==> i + |sep| <= |s| && s[i..i + |sep|] == sep
  {
    if s == "" || StartsWith(s, sep) then 0 else 1 + Find(s[1..], sep)
  }

  /** str.split with a non-empty separator. */
  function SplitOn(s: string, sep: string): (parts: seq<string>)
    requires sep != ""
    ensures |parts| > 0
    decreases |s|
  {
    var i := Find(s, sep);
    if i == |s| then [s] else [s[..i]] + SplitOn(s[i + |sep|..], sep)
  }

  predicate OccursAt(s: string, sep: string, k: int) {
    0 <= k <= |s| - |sep| && s[k..k + |sep|] == sep
  }

  ghost predicate Contains(s: string, sep: string) {
    exists k :: OccursAt(s, sep, k)
  }

  lemma JoinCons(delim: string, head: string, rest: seq<string>)
    requires |rest| > 0
    ensures JoinWith(delim, [head] + rest) == head + delim + JoinWith(delim, rest)
  {
    assert ([head] + rest)[1..] == rest;
  }

  lemma CutAt(s: string, i: nat, n: nat)
    requires i + n <= |s|
    ensures s == s[..i] + s[i..i + n] + s[i + n..]
  {
  }

  lemma {:induction false} JoinUndoesSplit(s: string, sep: string)
    requires sep != ""
    ensures JoinWith(sep, SplitOn(s, sep)) == s
    decreases |s|
  {
    var i := Find(s, sep);
    if i < |s| {
      var rest := s[i + |sep|..];
      JoinUndoesSplit(rest, sep);
      JoinCons(sep, s[..i], SplitOn(rest, sep));
      CutAt(s, i, |sep|);
    }
  }

  lemma {:induction false} FindIsLeftmost(s: string, sep: string, k: nat)
    requires sep != "" && OccursAt(s, sep, k)
    ensures Find(s, sep) <= k
    decreases |s|
  {
    if k == 0 {
      assert s[..|sep|] == s[0..|sep|];
    } else if !StartsWith(s, sep) {
      assert s[1..][k - 1..k - 1 + |sep|] == s[k..k + |sep|];
      FindIsLeftmost(s[1..], sep, k - 1);
    }
  }

  lemma HeadFree(s: string, sep: string)
    requires sep != ""
    ensures !Contains(s[..Find(s, sep)], sep)
  {
    var i := Find(s, sep);
    var head := s[..i];
    if Contains(head, sep) {
      var k :| OccursAt(head, sep, k);
      assert s[k..k + |sep|] == head[k..k + |sep|];
      FindIsLeftmost(s, sep, k);
      assert false;
    }
  }

  /** No piece of a split contains the separator: with JoinUndoesSplit, the split is the
      maximal one. */
  lemma {:induction false} SplitPiecesFree(s: string, sep: string, p: string)
    requires sep != "" && p in SplitOn(s, sep)
    ensures !Contains(p, sep)
    decreases |s|
  {
    var i := Find(s, sep);
    HeadFree(s, sep);
    if i == |s| {
      assert s[..i] == s;
    } else if p != s[..i] {
      SplitPiecesFree(s[i + |sep|..], sep, p);
    }
  }
}
