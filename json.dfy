/** The parsed JSON documents the screenshot lookup reads, as `JToken`
    trees, and the few `JToken` operations it uses. */
module Json {

  import opened Wrappers

  datatype Json =
    | JNull
    | JBool(b: bool)
    | JNumber(text: string)
    | JString(s: string)
    | JArray(items: seq<Json>)
    | JObject(props: seq<Prop>)

  /** A property of an object (`JProperty`). */
  datatype Prop = Prop(name: string, value: Json)

  /** A configuration file: absent, not parseable, or parsed. */
  datatype ConfigFile = NoFile | Corrupt | Parsed(doc: Json)

  /** `obj[name]`: the value of the first property with exactly that name. */
  function Get(props: seq<Prop>, name: string): Option<Json>
    decreases |props|
  {
    if props == [] then None
    else if props[0].name == name then Some(props[0].value)
    else Get(props[1..], name)
  }

  /** The lookup finds nothing exactly when no property has the name, and
      otherwise the value of the first property that has it. */
  lemma {:induction false} GetFirst(props: seq<Prop>, name: string)
    ensures Get(props, name).None? <==> forall i :: 0 <= i < |props| ==> props[i].name != name
    ensures Get(props, name).Some? ==>
              exists i :: (0 <= i < |props| && props[i].name == name && props[i].value == Get(props, name).value
                           && forall k :: 0 <= k < i ==> props[k].name != name)
    decreases |props|
  {
    if props != [] && props[0].name != name {
      var rest := props[1..];
      GetFirst(rest, name);
      assert forall i :: 1 <= i < |props| ==> props[i] == rest[i - 1];
      if Get(rest, name).Some? {
        var i :| 0 <= i < |rest| && rest[i].name == name && rest[i].value == Get(rest, name).value
                 && forall k :: 0 <= k < i ==> rest[k].name != name;
        assert props[i + 1] == rest[i];
        assert forall k :: 1 <= k < i + 1 ==> props[k] == rest[k - 1];
      }
    } else if props != [] {
      assert props[0].name == name;
    }
  }

  /** `token.ToString()` of a scalar: the string itself, the number as
      written, `True`/`False`, and the empty string for a JSON null. The text
      of an array or object (its formatted JSON) is not modelled. */
  function ScalarText(j: Json): Option<string>
  {
    match j
    case JNull => Some("")
    case JBool(b) => Some(if b then "True" else "False")
    case JNumber(t) => Some(t)
    case JString(s) => Some(s)
    case _ => None
  }

  /** `DescendantsAndSelf().OfType<JProperty>()`: every property of the
      document, each before the properties nested in its value, in
      document order. */
  function PropsIn(j: Json): (r: seq<Prop>)
    ensures j.JObject? ==> forall i :: 0 <= i < |j.props| ==> j.props[i] in r
    decreases j
  {
    match j
    case JArray(items) => FlattenProps(seq(|items|, i requires 0 <= i < |items| => PropsIn(items[i])))
    case JObject(props) =>
      var r := FlattenProps(seq(|props|, i requires 0 <= i < |props| => [props[i]] + PropsIn(props[i].value)));
      assert forall i :: 0 <= i < |props| ==> props[i] in r by {
        var parts := seq(|props|, i requires 0 <= i < |props| => [props[i]] + PropsIn(props[i].value));
        forall i | 0 <= i < |props| ensures props[i] in r {
          FlattenMember(parts, props[i]);
          assert props[i] in parts[i];
        }
      }
      r
    case _ => []
  }

  function FlattenProps(xs: seq<seq<Prop>>): seq<Prop>
    decreases |xs|
  {
    if xs == [] then [] else xs[0] + FlattenProps(xs[1..])
  }

  /** An element is in the flattened sequence iff it is in one of the parts. */
  lemma {:induction false} FlattenMember(xs: seq<seq<Prop>>, x: Prop)
    ensures x in FlattenProps(xs) <==> exists i :: 0 <= i < |xs| && x in xs[i]
    decreases |xs|
  {
    if xs != [] {
      FlattenMember(xs[1..], x);
      if x in FlattenProps(xs[1..]) {
        var i :| 0 <= i < |xs[1..]| && x in xs[1..][i];
        assert x in xs[i + 1];
      }
      if exists i :: 0 <= i < |xs| && x in xs[i] {
        var i :| 0 <= i < |xs| && x in xs[i];
        if i > 0 {
          assert x in xs[1..][i - 1];
        }
      }
    }
  }

  /** The property `p` occurs somewhere in the document, at any depth. */
  predicate Reaches(j: Json, p: Prop)
    decreases j
  {
    match j
    case JArray(items) => exists i :: 0 <= i < |items| && Reaches(items[i], p)
    case JObject(props) => exists i :: 0 <= i < |props| && (props[i] == p || Reaches(props[i].value, p))
    case _ => false
  }

  /** The scan yields exactly the properties of the document, nested ones
      included. */
  lemma {:induction false} PropsInMeaning(j: Json, p: Prop)
    ensures p in PropsIn(j) <==> Reaches(j, p)
    decreases j
  {
    match j
    case JArray(items) =>
      var parts := seq(|items|, i requires 0 <= i < |items| => PropsIn(items[i]));
      FlattenMember(parts, p);
      forall i | 0 <= i < |items| ensures p in parts[i] <==> Reaches(items[i], p) {
        PropsInMeaning(items[i], p);
      }
    case JObject(props) =>
      var parts := seq(|props|, i requires 0 <= i < |props| => [props[i]] + PropsIn(props[i].value));
      FlattenMember(parts, p);
      forall i | 0 <= i < |props| ensures p in parts[i] <==> (props[i] == p || Reaches(props[i].value, p)) {
        PropsInMeaning(props[i].value, p);
      }
    case _ =>
  }
}
