/**
 * Annotation: an IR annotation built from an annotation expression. Only
 * string-literal values are kept, flattened into a map from attribute name
 * to the literal's value; a single-member annotation stores its value under
 * `default`.
 */
module Annotations {
  import opened JavaAst
  import opened Ir
  import opened JavaStrings

  /** The string-literal pairs of `pairs`, a later pair overwriting an
      earlier one with the same name (as `HashMap.put` does). */
  function LiteralPairs(pairs: seq<MemberValuePair>): map<string, string>
    decreases |pairs|
  {
    if pairs == [] then map[]
    else
      var last := pairs[|pairs| - 1];
      var m := LiteralPairs(pairs[..|pairs| - 1]);
      if last.value.StringLit? then m[last.name := last.value.value] else m
  }

  /** The attribute map `parseAttributes` builds. */
  function Attributes(ae: AnnotationExpr): map<string, string> {
    match ae
    case Marker(_) => map[]
    case SingleMember(_, v) => if v.StringLit? then map["default" := v.value] else map[]
    case Normal(_, pairs) => LiteralPairs(pairs)
  }

  /** `parseAttributes`: the loop over the pairs of a normal annotation. */
  method ParseAttributes(ae: AnnotationExpr) returns (attributes: map<string, string>)
    ensures attributes == Attributes(ae)
  {
    attributes := map[];
    match ae {
      case Marker(_) =>
        return;
      case SingleMember(_, v) =>
        if v.StringLit? {
          attributes := attributes["default" := v.value];
        } else {
          return;
        }
      case Normal(_, pairs) =>
        var i := 0;
        while i < |pairs|
          invariant 0 <= i <= |pairs|
          invariant attributes == LiteralPairs(pairs[..i])
        {
          assert pairs[..i + 1][..i] == pairs[..i];
          if pairs[i].value.StringLit? {
            attributes := attributes[pairs[i].name := pairs[i].value.value];
          }
          i := i + 1;
        }
        assert pairs[..|pairs|] == pairs;
    }
  }

  /** A key of the flattened map is exactly the name of a pair with a
      string-literal value, and it maps to the value of the last such pair. */
  lemma {:induction false} LiteralPairsSpec(pairs: seq<MemberValuePair>, k: string)
    ensures k in LiteralPairs(pairs) <==>
      exists i :: 0 <= i < |pairs| && pairs[i].name == k && pairs[i].value.StringLit?
    ensures k in LiteralPairs(pairs) ==>
      exists i :: 0 <= i < |pairs| && pairs[i].name == k && pairs[i].value.StringLit? &&
        LiteralPairs(pairs)[k] == pairs[i].value.value &&
        forall j :: i < j < |pairs| ==> !(pairs[j].name == k && pairs[j].value.StringLit?)
    decreases |pairs|
  {
    if pairs != [] {
      var n := |pairs| - 1;
      var init := pairs[..n];
      LiteralPairsSpec(init, k);
      var last := pairs[n];
      if last.name == k && last.value.StringLit? {
        assert LiteralPairs(pairs)[k] == last.value.value;
      } else {
        assert LiteralPairs(pairs) == LiteralPairs(init) || LiteralPairs(pairs) == LiteralPairs(init)[last.name := last.value.value];
        if exists i :: 0 <= i < |pairs| && pairs[i].name == k && pairs[i].value.StringLit? {
          var i :| 0 <= i < |pairs| && pairs[i].name == k && pairs[i].value.StringLit?;
          assert i < n && init[i] == pairs[i];
        }
        if k in LiteralPairs(init) {
          var i :| 0 <= i < |init| && init[i].name == k && init[i].value.StringLit? &&
            LiteralPairs(init)[k] == init[i].value.value &&
            forall j :: i < j < |init| ==> !(init[j].name == k && init[j].value.StringLit?);
          assert pairs[i] == init[i];
          forall j | i < j < |pairs| ensures !(pairs[j].name == k && pairs[j].value.StringLit?) {
            if j < n { assert pairs[j] == init[j]; }
          }
        }
      }
    }
  }

  /** A marker annotation has no attributes. */
  lemma MarkerHasNoAttributes(name: string)
    ensures Attributes(Marker(name)) == map[]
  {
  }

  /** A single-member annotation keeps its value under `default` exactly when
      the value is a string literal. */
  lemma SingleMemberAttributes(name: string, v: Expr)
    ensures v.StringLit? ==> Attributes(SingleMember(name, v)) == map["default" := v.value]
    ensures !v.StringLit? ==> Attributes(SingleMember(name, v)) == map[]
  {
  }

  /** `new Annotation(annotationExpr, packageAndClassName)`. */
  function FromExpr(ae: AnnotationExpr, packageAndClassName: string): (a: Annotation)
    ensures a.name == ae.name && a.packageAndClassName == packageAndClassName
    ensures ae.Marker? ==> a.attributes == map[]
    ensures ae.SingleMember? ==> a.attributes.Keys <= {"default"}
  {
    Annotation(ae.name, packageAndClassName, Attributes(ae))
  }

  /** An enumeration of the keys of `m`: each key exactly once. */
  predicate EnumeratesKeys(m: map<string, string>, order: seq<string>) {
    NoDuplicates(order) && (forall k :: k in order ==> k in m) && (forall k :: k in m ==> k in order)
  }

  function Entries(m: map<string, string>, order: seq<string>): (r: seq<string>)
    requires forall k :: k in order ==> k in m
    ensures |r| == |order|
    ensures forall i :: 0 <= i < |order| ==> r[i] == order[i] + "=" + m[order[i]]
  {
    if order == [] then [] else [order[0] + "=" + m[order[0]]] + Entries(m, order[1..])
  }

  /** `getContents`: the entries `k=v`, in the map's iteration order `order`,
      joined by commas. */
  function GetContents(a: Annotation, order: seq<string>): string
    requires EnumeratesKeys(a.attributes, order)
  {
    Join(Entries(a.attributes, order), ",")
  }

  /** Each part of a join occurs in it; `j` is where. */
  lemma {:induction false} JoinContains(parts: seq<string>, sep: string, i: nat) returns (j: nat)
    requires i < |parts|
    ensures OccursAt(Join(parts, sep), parts[i], j)
    decreases |parts|
  {
    var s := Join(parts, sep);
    if |parts| == 1 {
      j := 0;
      assert s[0..|parts[0]|] == parts[0];
    } else if i == 0 {
      j := 0;
      assert s == parts[0] + sep + Join(parts[1..], sep);
      assert s[0..|parts[0]|] == parts[0];
    } else {
      var k := JoinContains(parts[1..], sep, i - 1);
      var rest := Join(parts[1..], sep);
      var off := |parts[0]| + |sep|;
      j := off + k;
      assert parts[1..][i - 1] == parts[i];
      assert s == parts[0] + sep + rest;
      assert s[off + k..off + k + |parts[i]|] == rest[k..k + |parts[i]|];
    }
  }

  /** The contents are empty exactly when there are no attributes, and every
      attribute appears in them as `k=v`. */
  lemma ContentsSpec(a: Annotation, order: seq<string>)
    requires EnumeratesKeys(a.attributes, order)
    ensures GetContents(a, order) == "" <==> a.attributes == map[]
    ensures forall k :: k in a.attributes ==> Contains(GetContents(a, order), k + "=" + a.attributes[k])
  {
    var es := Entries(a.attributes, order);
    var s := GetContents(a, order);
    if a.attributes == map[] {
      assert order == [];
    } else {
      var k :| k in a.attributes;
      assert k in order;
      var i :| 0 <= i < |order| && order[i] == k;
      var j := JoinContains(es, ",", i);
      assert |es[i]| > 0;
    }
    forall k | k in a.attributes ensures Contains(s, k + "=" + a.attributes[k]) {
      assert k in order;
      var i :| 0 <= i < |order| && order[i] == k;
      var j := JoinContains(es, ",", i);
      ContainsAt(s, es[i], j);
    }
  }
}
