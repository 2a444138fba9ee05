/** JsonUtils: dotted-path lookup over a parsed JSON tree, and the failure
    behaviour of the helpers that wrap the JSON library. Parsing itself is
    the library's: every operation takes it as a partial function `parse`
    from text to a tree (None when the library throws). */
module Json {
  import opened Results
  import Text

  /** A parsed JSON tree (Jackson's JsonNode, without floating point). An
      object keeps its members in document order. */
  datatype Json =
    | JNull
    | JBool(b: bool)
    | JInt(n: int)
    | JString(s: string)
    | JArray(items: seq<Json>)
    | JObject(members: seq<(string, Json)>)

  /** The value bound to `key` by the last member that names it (a repeated
      key in a document overwrites the earlier value). */
  function LastBinding(members: seq<(string, Json)>, key: string): (r: Option<Json>)
    ensures r.None? <==> forall i :: 0 <= i < |members| ==> members[i].0 != key
    ensures r.Some? ==>
      exists i :: (0 <= i < |members| && members[i] == (key, r.value) &&
        forall j :: i < j < |members| ==> members[j].0 != key)
  {
    if |members| == 0 then None
    else if members[|members| - 1].0 == key then Some(members[|members| - 1].1)
    else LastBinding(members[..|members| - 1], key)
  }

  /** Member `i` is the last one that names its key, so its value is the
      one the key is bound to. */
  predicate IsLastKey(members: seq<(string, Json)>, i: int)
    requires 0 <= i < |members|
  {
    forall j :: i < j < |members| ==> members[j].0 != members[i].0
  }

  /** Some member names `key`. */
  predicate HasKey(members: seq<(string, Json)>, key: string) {
    exists i :: 0 <= i < |members| && members[i].0 == key
  }

  /** Java's `equals` on the values a JSON path yields: an array is a List
      (equal element by element), an object a Map (equal key sets and equal
      bound values, whatever the member order), a scalar its boxed value. */
  predicate ValueEquals(a: Json, b: Json)
    decreases a
  {
    match a
    case JArray(xs) =>
      b.JArray? && |xs| == |b.items| &&
      forall i :: 0 <= i < |xs| ==> ValueEquals(xs[i], b.items[i])
    case JObject(ms) =>
      && b.JObject?
      && (forall i :: 0 <= i < |ms| && IsLastKey(ms, i) ==>
            exists j :: 0 <= j < |b.members| && IsLastKey(b.members, j) &&
              b.members[j].0 == ms[i].0 && ValueEquals(ms[i].1, b.members[j].1))
      && (forall j :: 0 <= j < |b.members| ==> HasKey(ms, b.members[j].0))
    case _ => a == b
  }

  /** Every value equals itself, so equal trees are equal values. */
  lemma {:induction false} ValueEqualsReflexive(a: Json)
    ensures ValueEquals(a, a)
    decreases a
  {
    if a.JArray? {
      var xs := a.items;
      forall i | 0 <= i < |xs| ensures ValueEquals(xs[i], xs[i]) {
        ValueEqualsReflexive(xs[i]);
      }
    } else if a.JObject? {
      var ms := a.members;
      forall i | 0 <= i < |ms| ensures ValueEquals(ms[i].1, ms[i].1) {
        ValueEqualsReflexive(ms[i].1);
      }
      MembersEqualThemselves(a);
    }
  }

  /** The object case of reflexivity, once every member value is known to
      equal itself: member i is its own witness. */
  lemma MembersEqualThemselves(a: Json)
    requires a.JObject?
    requires forall i :: 0 <= i < |a.members| ==> ValueEquals(a.members[i].1, a.members[i].1)
    ensures ValueEquals(a, a)
  {
    var ms := a.members;
    forall i | 0 <= i < |ms| && IsLastKey(ms, i)
      ensures exists j :: 0 <= j < |ms| && IsLastKey(ms, j) && ms[j].0 == ms[i].0 && ValueEquals(ms[i].1, ms[j].1)
    {
      assert ValueEquals(ms[i].1, ms[i].1);
    }
    forall j | 0 <= j < |ms| ensures HasKey(ms, ms[j].0) {
      assert ms[j].0 == ms[j].0;
    }
  }

  /** Some member names `key` for the last time: from any member naming
      `key`, later ones are followed until none is left. */
  lemma LastIndexOfKey(members: seq<(string, Json)>, key: string, from: int) returns (i: int)
    requires 0 <= from < |members| && members[from].0 == key
    ensures from <= i < |members| && members[i].0 == key && IsLastKey(members, i)
    decreases |members| - from
  {
    if IsLastKey(members, from) {
      i := from;
    } else {
      var j :| from < j < |members| && members[j].0 == members[from].0;
      i := LastIndexOfKey(members, key, j);
    }
  }

  /** A key has at most one last binding. */
  lemma LastKeyUnique(members: seq<(string, Json)>, i: int, j: int)
    requires 0 <= i < |members| && 0 <= j < |members|
    requires IsLastKey(members, i) && IsLastKey(members, j) && members[i].0 == members[j].0
    ensures i == j
  {
  }

  /** Java's equals on JSON values is symmetric, so comparing expected with
      actual or actual with expected gives the same answer. */
  lemma {:induction false} ValueEqualsSymmetric(a: Json, b: Json)
    requires ValueEquals(a, b)
    ensures ValueEquals(b, a)
    decreases a
  {
    match a
    case JArray(xs) =>
      var ys := b.items;
      forall i | 0 <= i < |ys| ensures ValueEquals(ys[i], xs[i]) {
        ValueEqualsSymmetric(xs[i], ys[i]);
      }
    case JObject(ms) =>
      var ns := b.members;
      forall i, j | 0 <= i < |ms| && 0 <= j < |ns| && ValueEquals(ms[i].1, ns[j].1)
        ensures ValueEquals(ns[j].1, ms[i].1)
      {
        ValueEqualsSymmetric(ms[i].1, ns[j].1);
      }
      MembersSymmetric(a, b);
    case _ =>
  }

  /** In objects equal as values, the last binding of a key in `a` is
      matched by a last binding of the same key in `b`. */
  lemma MatchedBinding(a: Json, b: Json, k: int) returns (j: int)
    requires a.JObject? && ValueEquals(a, b)
    requires 0 <= k < |a.members| && IsLastKey(a.members, k)
    ensures b.JObject? && 0 <= j < |b.members| && IsLastKey(b.members, j)
    ensures b.members[j].0 == a.members[k].0 && ValueEquals(a.members[k].1, b.members[j].1)
  {
    j :| 0 <= j < |b.members| && IsLastKey(b.members, j) && b.members[j].0 == a.members[k].0 &&
      ValueEquals(a.members[k].1, b.members[j].1);
  }

  /** The object case of symmetry, once it holds for the member values. */
  lemma MembersSymmetric(a: Json, b: Json)
    requires a.JObject? && b.JObject? && ValueEquals(a, b)
    requires forall i, j ::
      (0 <= i < |a.members| && 0 <= j < |b.members| && ValueEquals(a.members[i].1, b.members[j].1)) ==>
        ValueEquals(b.members[j].1, a.members[i].1)
    ensures ValueEquals(b, a)
  {
    BindingsSymmetric(a, b);
    forall k | 0 <= k < |a.members| && IsLastKey(a.members, k)
      ensures HasKey(b.members, a.members[k].0)
    {
      var j := MatchedBinding(a, b, k);
    }
    KeysSymmetric(a.members, b.members);
  }

  /** The last binding of a key in `b` is matched by the last binding of
      that key in `a`: `a` has the key, and its last binding is matched by
      the unique last binding in `b`. */
  lemma BindingsSymmetric(a: Json, b: Json)
    requires a.JObject? && b.JObject? && ValueEquals(a, b)
    requires forall i, j ::
      (0 <= i < |a.members| && 0 <= j < |b.members| && ValueEquals(a.members[i].1, b.members[j].1)) ==>
        ValueEquals(b.members[j].1, a.members[i].1)
    ensures forall j :: 0 <= j < |b.members| && IsLastKey(b.members, j) ==>
      exists i :: 0 <= i < |a.members| && IsLastKey(a.members, i) &&
        a.members[i].0 == b.members[j].0 && ValueEquals(b.members[j].1, a.members[i].1)
  {
    var ms, ns := a.members, b.members;
    forall j | 0 <= j < |ns| && IsLastKey(ns, j)
      ensures exists i :: 0 <= i < |ms| && IsLastKey(ms, i) && ms[i].0 == ns[j].0 && ValueEquals(ns[j].1, ms[i].1)
    {
      assert HasKey(ms, ns[j].0);
      var i0 :| 0 <= i0 < |ms| && ms[i0].0 == ns[j].0;
      var i := LastIndexOfKey(ms, ns[j].0, i0);
      var j' := MatchedBinding(a, b, i);
      LastKeyUnique(ns, j, j');
      assert ValueEquals(ns[j].1, ms[i].1);
    }
  }

  /** If every key's last binding in `ms` has its key in `ns`, every key
      of `ms` is in `ns`. */
  lemma KeysSymmetric(ms: seq<(string, Json)>, ns: seq<(string, Json)>)
    requires forall k :: 0 <= k < |ms| && IsLastKey(ms, k) ==> HasKey(ns, ms[k].0)
    ensures forall i :: 0 <= i < |ms| ==> HasKey(ns, ms[i].0)
  {
    forall i | 0 <= i < |ms| ensures HasKey(ns, ms[i].0) {
      var k := LastIndexOfKey(ms, ms[i].0, i);
      assert HasKey(ns, ms[k].0);
    }
  }

  /** A scalar equals only itself, and no non-null value equals JSON null. */
  lemma ValueEqualsScalars(a: Json, b: Json)
    ensures !a.JArray? && !a.JObject? ==> (ValueEquals(a, b) <==> a == b)
    ensures a != JNull ==> !ValueEquals(a, JNull)
  {
  }

  /** Member order does not matter to Map.equals: {a:1,b:2} equals
      {b:2,a:1} although the two trees differ. */
  lemma ValueEqualsIgnoresMemberOrder()
    ensures JObject([("a", JInt(1)), ("b", JInt(2))]) != JObject([("b", JInt(2)), ("a", JInt(1))])
    ensures ValueEquals(JObject([("a", JInt(1)), ("b", JInt(2))]), JObject([("b", JInt(2)), ("a", JInt(1))]))
  {
    var ms := [("a", JInt(1)), ("b", JInt(2))];
    var ns := [("b", JInt(2)), ("a", JInt(1))];
    assert ms[0] != ns[0];
    assert IsLastKey(ns, 0) && IsLastKey(ns, 1);
    assert ValueEquals(ms[0].1, ns[1].1) && ValueEquals(ms[1].1, ns[0].1);
    forall i | 0 <= i < |ms| && IsLastKey(ms, i)
      ensures exists j :: 0 <= j < |ns| && IsLastKey(ns, j) && ns[j].0 == ms[i].0 && ValueEquals(ms[i].1, ns[j].1)
    {
      if i == 0 {
        assert ns[1].0 == ms[0].0;
      } else {
        assert ns[0].0 == ms[1].0;
      }
    }
    forall j | 0 <= j < |ns| ensures HasKey(ms, ns[j].0) {
      if j == 0 {
        assert ms[1].0 == ns[0].0;
      } else {
        assert ms[0].0 == ns[1].0;
      }
    }
  }

  /** JsonNode.get(fieldName): the member of an object node; null (None)
      for arrays and scalar nodes. */
  function Get(node: Json, key: string): Option<Json> {
    match node
    case JObject(members) => LastBinding(members, key)
    case _ => None
  }

  /** JsonNode.asText: the text of a scalar node, "null" for a JSON null,
      and the empty string for an array or object. */
  function AsText(node: Json): string {
    match node
    case JNull => "null"
    case JBool(b) => if b then "true" else "false"
    case JInt(n) => Text.IntToString(n)
    case JString(s) => s
    case JArray(_) => ""
    case JObject(_) => ""
  }

  /** The node reached by descending one object member per segment, or
      None as soon as a segment is missing. */
  function Resolve(node: Json, segments: seq<string>): Option<Json>
    decreases |segments|
  {
    if |segments| == 0 then Some(node)
    else match Get(node, segments[0])
      case None => None
      case Some(child) => Resolve(child, segments[1..])
  }

  /** What `extractValue(json, path)` returns: None ("null" in the source)
      when the text does not parse or a segment is missing, otherwise the
      text form of the node reached. The path is split as by
      `path.split("\\.")`. */
  ghost function ExtractedValue(parse: string -> Option<Json>, json: string, path: string): Option<string> {
    match parse(json)
    case None => None
    case Some(root) =>
      match Resolve(root, Text.JavaSplit(path, '.'))
      case None => None
      case Some(node) => Some(AsText(node))
  }

  /** JsonUtils.extractValue: walks the segments with a cursor node and
      returns early on the first missing one; a parse failure is caught and
      turned into None. */
  method ExtractValue(parse: string -> Option<Json>, json: string, path: string) returns (r: Option<string>)
    ensures r == ExtractedValue(parse, json, path)
  {
    var parsed := parse(json);
    if parsed.None? {
      return None;
    }
    var root := parsed.value;
    var parts := Text.JavaSplit(path, '.');
    var current := root;
    for i := 0 to |parts|
      invariant Resolve(root, parts) == Resolve(current, parts[i..])
    {
      assert parts[i..][1..] == parts[i + 1..];
      var next := Get(current, parts[i]);
      if next.None? {
        return None;
      }
      current := next.value;
    }
    return Some(AsText(current));
  }

  /** Resolving a concatenation of paths resolves the first, then the
      second from where the first ended. */
  lemma {:induction false} ResolveAppend(node: Json, xs: seq<string>, ys: seq<string>)
    ensures Resolve(node, xs + ys) ==
      match Resolve(node, xs)
      case None => None
      case Some(m) => Resolve(m, ys)
    decreases |xs|
  {
    if |xs| > 0 {
      assert (xs + ys)[0] == xs[0];
      assert (xs + ys)[1..] == xs[1..] + ys;
      match Get(node, xs[0])
      case None =>
      case Some(child) => ResolveAppend(child, xs[1..], ys);
    } else {
      assert xs + ys == ys;
    }
  }

  /** A path that is absent stays absent however it is extended: if `p`
      resolves to nothing, so does `p + "." + q`. `p` must be non-empty: the
      path "" is the single segment "", but "." splits into no segments at
      all and so yields the root itself (see EmptyPathExtensionResolvesRoot). */
  lemma ExtractedValuePrefixAbsent(parse: string -> Option<Json>, json: string, p: string, q: string)
    requires p != ""
    requires ExtractedValue(parse, json, p).None?
    ensures ExtractedValue(parse, json, p + "." + q).None?
  {
    if parse(json).Some? {
      var root := parse(json).value;
      var xs := Text.JavaSplit(p, '.');
      assert Resolve(root, xs).None?;
      assert p + "." + q == p + ['.'] + q;
      var whole := Text.JavaSplit(p + "." + q, '.');
      ResolvePrefixAbsent(root, xs, whole, p, q);
      assert Resolve(root, whole).None?;
    }
  }

  lemma ResolvePrefixAbsent(root: Json, xs: seq<string>, whole: seq<string>, p: string, q: string)
    requires p != ""
    requires xs == Text.JavaSplit(p, '.') && whole == Text.JavaSplit(p + ['.'] + q, '.')
    requires Resolve(root, xs).None?
    ensures Resolve(root, whole).None?
  {
    Text.JavaSplitPrefix(p, q, '.');
    assert whole == xs + whole[|xs|..];
    ResolveAppend(root, xs, whole[|xs|..]);
  }

  /** The edge case excluded above: with an object root lacking the key "",
      the path "" is absent while "" + "." + "" (the path ".") gives the
      root's text, the empty string. */
  lemma EmptyPathExtensionResolvesRoot()
    ensures ExtractedValue(_ => Some(JObject([])), "{}", "").None?
    ensures ExtractedValue(_ => Some(JObject([])), "{}", "" + "." + "") == Some("")
  {
    assert Text.JavaSplit("", '.') == [""];
    assert Text.Split(".", '.') == ["", ""] by {
      assert "."[1..] == "";
    }
    assert Text.JavaSplit(".", '.') == [];
  }

  /** A path with only non-empty segments is split into those segments. */
  lemma SplitOfDottedPath(segments: seq<string>)
    requires |segments| >= 1
    requires forall i :: 0 <= i < |segments| ==> segments[i] != "" && '.' !in segments[i]
    ensures Text.JavaSplit(Text.Join(segments, "."), '.') == segments
  {
    var path := Text.Join(segments, ".");
    Text.SplitOfJoin(segments, '.');
    if '.' !in path {
      Text.SplitWithoutSeparator(path, '.');
    }
  }

  /** Looking up `a.b` in a document finds the member `b` of the member `a`;
      a present JSON null is the text "null", not an absent value. */
  lemma ExtractNested(parse: string -> Option<Json>, json: string, a: string, b: string, inner: Json)
    requires a != "" && '.' !in a && b != "" && '.' !in b
    requires parse(json) == Some(JObject([(a, JObject([(b, inner)]))]))
    ensures ExtractedValue(parse, json, a + "." + b) == Some(AsText(inner))
    ensures inner == JNull ==> ExtractedValue(parse, json, a + "." + b) == Some("null")
  {
    SplitOfDottedPath([a, b]);
    assert Text.Join([a, b], ".") == a + "." + b;
    var child := JObject([(b, inner)]);
    assert Get(parse(json).value, a) == Some(child);
    assert Get(child, b) == Some(inner);
    assert Resolve(inner, []) == Some(inner);
    assert Resolve(child, [b]) == Some(inner) by {
      assert [b][1..] == [];
    }
    assert Resolve(parse(json).value, [a, b]) == Some(inner) by {
      assert [a, b][1..] == [b];
    }
  }

  /** isValidJson: parsing succeeds. */
  function IsValidJson(parse: string -> Option<Json>, json: string): (valid: bool)
    ensures valid <==> parse(json).Some?
  {
    parse(json).Some?
  }

  /** prettyPrint: the text re-rendered by the pretty printer, or the input
      itself when either step fails. Its parser is the data binding
      `readValue(json, Object.class)`, taken as `bind`, which is a different
      entry point from the `readTree` parser of isValidJson: the two need
      not agree (for empty text, `readTree` gives a missing node while
      `readValue` reports the end of input). The pretty printer is taken as
      `render`. */
  function PrettyPrint(bind: string -> Option<Json>, render: Json -> Option<string>, json: string): (r: string)
    ensures bind(json).None? ==> r == json
    ensures bind(json).Some? && render(bind(json).value).None? ==> r == json
    ensures bind(json).Some? && render(bind(json).value).Some? ==> r == render(bind(json).value).value
  {
    match bind(json)
    case None => json
    case Some(value) =>
      match render(value)
      case None => json
      case Some(text) => text
  }

  /** Because the two parsers are separate, text that isValidJson accepts
      (and so validateJsonFormat passes) can still be printed back
      unchanged, as the empty text is. */
  lemma ValidYetEchoed(parse: string -> Option<Json>, bind: string -> Option<Json>,
                       render: Json -> Option<string>, json: string)
    requires parse(json).Some? && bind(json).None?
    ensures IsValidJson(parse, json)
    ensures PrettyPrint(bind, render, json) == json
    ensures GetJsonNode(parse, json) == Success(parse(json).value)
  {
  }

  /** The failure raised by getJsonNode, fromJson and the other wrappers:
      a RuntimeException carrying a fixed message. */
  datatype JsonError = RuntimeException(message: string)

  /** getJsonNode: unlike extractValue, a parse failure is re-thrown as a
      RuntimeException. */
  function GetJsonNode(parse: string -> Option<Json>, json: string): (r: Result<Json>)
    ensures r.Failure? <==> !IsValidJson(parse, json)
    ensures r.Success? ==> parse(json) == Some(r.value)
  {
    match parse(json)
    case None => Failure(RuntimeException("JSON parse failed"))
    case Some(tree) => Success(tree)
  }

  datatype Result<T> = Success(value: T) | Failure(error: JsonError)

  /** toJson: the library's serialisation `encode`, or a RuntimeException
      when it fails. */
  function ToJson<T>(encode: T -> Option<string>, obj: T): (r: Result<string>)
    ensures r.Failure? <==> encode(obj).None?
    ensures r.Success? ==> encode(obj) == Some(r.value)
    ensures r.Failure? ==> r.error == RuntimeException("JSON serialization failed")
  {
    match encode(obj)
    case None => Failure(RuntimeException("JSON serialization failed"))
    case Some(text) => Success(text)
  }

  /** fromJson: the library's data binding `decode`, or a RuntimeException
      when it fails. */
  function FromJson<T>(decode: string -> Option<T>, json: string): (r: Result<T>)
    ensures r.Failure? <==> decode(json).None?
    ensures r.Success? ==> decode(json) == Some(r.value)
    ensures r.Failure? ==> r.error == RuntimeException("JSON deserialization failed")
  {
    match decode(json)
    case None => Failure(RuntimeException("JSON deserialization failed"))
    case Some(obj) => Success(obj)
  }

  /** Text that both parsers reject is absent under every path and is
      printed back unchanged (neither throws), while getJsonNode, and
      fromJson with a binding that rejects it, fail with an exception. */
  lemma UnparseableText<T>(parse: string -> Option<Json>, bind: string -> Option<Json>,
                           render: Json -> Option<string>, decode: string -> Option<T>,
                           json: string, path: string)
    requires !IsValidJson(parse, json) && bind(json).None? && decode(json).None?
    ensures ExtractedValue(parse, json, path).None?
    ensures PrettyPrint(bind, render, json) == json
    ensures GetJsonNode(parse, json).Failure?
    ensures FromJson(decode, json) == Failure(RuntimeException("JSON deserialization failed"))
  {
  }

  /** The text form used when an assertion reports a value: Java's
      toString of the value a JSON path yields (List as "[a, b]", Map as
      "{k=v}"). */
  function Show(j: Json): string {
    match j
    case JNull => "null"
    case JBool(b) => if b then "true" else "false"
    case JInt(n) => Text.IntToString(n)
    case JString(s) => s
    case JArray(items) =>
      "[" + Text.Join(seq(|items|, i requires 0 <= i < |items| => Show(items[i])), ", ") + "]"
    case JObject(members) =>
      "{" + Text.Join(seq(|members|, i requires 0 <= i < |members| =>
        members[i].0 + "=" + Show(members[i].1)), ", ") + "}"
  }
}
