/** `changeValuesToKeys`, `useKeysAsValues` and `paramsUseKeysAsValues` of
    `src/converter/converter.ts`: example values in generated request bodies
    and parameters become `{{name}}` placeholders, so that they can be filled
    from environment variables.

    Every value that is not an object or an array becomes a placeholder
    named by its path: a top-level key is its own name, a nested key is
    appended to its parent's name with its first letter upper-cased, and
    array positions count as keys. Values that stand for a number or a
    boolean carry the `<unquote>` marker, which the later unquote pass turns
    into an unquoted placeholder.

    `Rewrite` is the rewrite with `null` treated as a value. `RewriteAsWritten`
    follows the source, where `null` counts as an object, so that any `null`
    makes the rewrite fail; `RewriteAsWrittenIsRewrite` relates the two. */
module Placeholders {
  import opened Wrappers
  import opened Strings
  import opened Json
  import opened Collections
  import Unquote

  /** The type names of generated examples that stand for unquoted JSON. */
  predicate IsTypeName(v: Json) {
    v == JStr("<long>") || v == JStr("<integer>") || v == JStr("<number>") || v == JStr("<boolean>")
  }

  /** `addUnquotePlaceholder`. */
  function UnquotePrefix(v: Json): string {
    if IsTypeName(v) then Unquote.Marker else ""
  }

  /** The name of a child: the key at top level, otherwise the parent's name
      followed by the capitalized key. An empty parent name counts as top
      level. */
  function ChildName(parent: string, key: string): (n: string)
    ensures parent == "" ==> n == key
    ensures parent != "" ==> |n| == |parent| + |key| && n[..|parent|] == parent && n[|parent|..] == Capitalize(key)
  {
    if parent != "" then parent + Capitalize(key) else key
  }

  /** The placeholder that replaces a value. */
  function Placeholder(v: Json, name: string): Json {
    JStr(UnquotePrefix(v) + "{{" + name + "}}")
  }

  /** A placeholder starts with the marker exactly for the type names, and
      otherwise is the bare `{{name}}`; the name closes it either way. */
  lemma PlaceholderMarked(v: Json, name: string)
    ensures var s := Placeholder(v, name).s;
            && (IsTypeName(v) <==> |s| >= |Unquote.Marker| && s[..|Unquote.Marker|] == Unquote.Marker)
            && (!IsTypeName(v) ==> s == "{{" + name + "}}")
            && |s| >= |name| + 4 && s[|s| - |name| - 2..] == name + "}}"
  {
    var s := Placeholder(v, name).s;
    if !IsTypeName(v) {
      assert s[0] == '{' && Unquote.Marker[0] == '<';
    }
  }

  /** Objects and arrays; everything else is a value to replace. */
  predicate IsContainer(v: Json) {
    v.JObj? || v.JArr?
  }

  /** The rewrite of a value at the given path. Containers keep their keys,
      length and nesting; everything else below the top is replaced. */
  function Rewrite(v: Json, parent: string): (r: Json)
    ensures !IsContainer(v) ==> r == v
    ensures v.JObj? ==> r.JObj? && |r.members| == |v.members|
    ensures v.JObj? ==> forall j :: 0 <= j < |v.members| ==> r.members[j].key == v.members[j].key
    ensures v.JArr? ==> r.JArr? && |r.items| == |v.items|
    ensures v.JObj? ==> forall j :: 0 <= j < |v.members| && !IsContainer(v.members[j].value) ==>
              r.members[j].value == Placeholder(v.members[j].value, ChildName(parent, v.members[j].key))
    ensures v.JArr? ==> forall j :: 0 <= j < |v.items| && !IsContainer(v.items[j]) ==>
              r.items[j] == Placeholder(v.items[j], ChildName(parent, DecimalString(j)))
    decreases v, 1
  {
    match v
    case JObj(ms) =>
      JObj(seq(|ms|, j requires 0 <= j < |ms| =>
        Member(ms[j].key, RewriteChild(ms[j].value, ChildName(parent, ms[j].key)))))
    case JArr(items) =>
      JArr(seq(|items|, j requires 0 <= j < |items| =>
        RewriteChild(items[j], ChildName(parent, DecimalString(j)))))
    case _ => v
  }

  /** The rewrite of a child value under its full name. */
  function RewriteChild(c: Json, name: string): (r: Json)
    ensures !IsContainer(c) ==> r == Placeholder(c, name)
    ensures IsContainer(c) ==> IsContainer(r) && r.JObj? == c.JObj?
    decreases c, 2
  {
    if IsContainer(c) then Rewrite(c, name) else Placeholder(c, name)
  }

  /** Whether the value is or holds a `null`. */
  predicate HasNull(v: Json)
    decreases v
  {
    match v
    case JNull => true
    case JObj(ms) => exists j :: 0 <= j < |ms| && HasNull(ms[j].value)
    case JArr(items) => exists j :: 0 <= j < |items| && HasNull(items[j])
    case _ => false
  }

  /** All the results, if every child succeeded. */
  function AllValues(children: seq<Option<Json>>): (r: Option<seq<Json>>)
    ensures r.Some? <==> forall j :: 0 <= j < |children| ==> children[j].Some?
    ensures r.Some? ==> |r.value| == |children| && forall j :: 0 <= j < |children| ==> r.value[j] == children[j].value
  {
    if children == [] then Some([])
    else if children[0].None? then None
    else
      match AllValues(children[1..])
      case None => None
      case Some(rest) => Some([children[0].value] + rest)
  }

  /** The rewrite as the source performs it: `null` counts as an object, and
      listing the keys of `null` throws, so any `null` fails the rewrite. */
  function RewriteAsWritten(v: Json, parent: string): (r: Option<Json>)
    ensures !IsObject(v) ==> r == Some(v)
    ensures v.JNull? ==> r.None?
    decreases v, 1
  {
    match v
    case JNull => None
    case JObj(ms) =>
      (match AllValues(MembersAsWritten(v, parent))
       case None => None
       case Some(values) => Some(JObj(seq(|ms|, j requires 0 <= j < |ms| => Member(ms[j].key, values[j])))))
    case JArr(items) =>
      (match AllValues(ItemsAsWritten(v, parent))
       case None => None
       case Some(values) => Some(JArr(values)))
    case _ => Some(v)
  }

  function MembersAsWritten(v: Json, parent: string): (r: seq<Option<Json>>)
    requires v.JObj?
    ensures |r| == |v.members|
    ensures forall j :: 0 <= j < |r| ==> r[j] == ChildAsWritten(v.members[j].value, ChildName(parent, v.members[j].key))
    decreases v, 0
  {
    seq(|v.members|, j requires 0 <= j < |v.members| =>
      ChildAsWritten(v.members[j].value, ChildName(parent, v.members[j].key)))
  }

  function ItemsAsWritten(v: Json, parent: string): (r: seq<Option<Json>>)
    requires v.JArr?
    ensures |r| == |v.items|
    ensures forall j :: 0 <= j < |r| ==> r[j] == ChildAsWritten(v.items[j], ChildName(parent, DecimalString(j)))
    decreases v, 0
  {
    seq(|v.items|, j requires 0 <= j < |v.items| => ChildAsWritten(v.items[j], ChildName(parent, DecimalString(j))))
  }

  function ChildAsWritten(c: Json, name: string): (r: Option<Json>)
    ensures !IsObject(c) ==> r == Some(Placeholder(c, name))
    decreases c, 2
  {
    if IsObject(c) then RewriteAsWritten(c, name) else Some(Placeholder(c, name))
  }

  /** The source's rewrite fails exactly on values holding a `null`, and
      agrees with `Rewrite` on all others. */
  lemma RewriteAsWrittenIsRewrite(v: Json, parent: string)
    ensures RewriteAsWritten(v, parent) == if HasNull(v) then None else Some(Rewrite(v, parent))
    decreases v, 1
  {
    match v {
      case JObj(_) => ObjectAsWrittenIsRewrite(v, parent);
      case JArr(_) => ArrayAsWrittenIsRewrite(v, parent);
      case _ =>
    }
  }

  lemma ObjectAsWrittenIsRewrite(v: Json, parent: string)
    requires v.JObj?
    ensures RewriteAsWritten(v, parent) == if HasNull(v) then None else Some(Rewrite(v, parent))
    decreases v, 0
  {
    var ms := v.members;
    forall j | 0 <= j < |ms|
      ensures ChildAsWritten(ms[j].value, ChildName(parent, ms[j].key))
              == if HasNull(ms[j].value) then None
                 else Some(RewriteChild(ms[j].value, ChildName(parent, ms[j].key)))
    {
      ChildAsWrittenIsChild(ms[j].value, ChildName(parent, ms[j].key));
    }
    var children := MembersAsWritten(v, parent);
    if !HasNull(v) {
      var w := Rewrite(v, parent);
      assert forall j :: 0 <= j < |ms| ==> !HasNull(ms[j].value);
      assert AllValues(children).Some?;
      assert RewriteAsWritten(v, parent).value.members == w.members;
    } else {
      var j :| 0 <= j < |ms| && HasNull(ms[j].value);
      assert children[j].None?;
    }
  }

  lemma ArrayAsWrittenIsRewrite(v: Json, parent: string)
    requires v.JArr?
    ensures RewriteAsWritten(v, parent) == if HasNull(v) then None else Some(Rewrite(v, parent))
    decreases v, 0
  {
    var items := v.items;
    forall j | 0 <= j < |items|
      ensures ChildAsWritten(items[j], ChildName(parent, DecimalString(j)))
              == if HasNull(items[j]) then None
                 else Some(RewriteChild(items[j], ChildName(parent, DecimalString(j))))
    {
      ChildAsWrittenIsChild(items[j], ChildName(parent, DecimalString(j)));
    }
    var children := ItemsAsWritten(v, parent);
    if !HasNull(v) {
      var w := Rewrite(v, parent);
      assert forall j :: 0 <= j < |items| ==> !HasNull(items[j]);
      assert AllValues(children).Some?;
      assert RewriteAsWritten(v, parent).value.items == w.items;
    } else {
      var j :| 0 <= j < |items| && HasNull(items[j]);
      assert children[j].None?;
    }
  }

  lemma ChildAsWrittenIsChild(c: Json, name: string)
    ensures ChildAsWritten(c, name) == if HasNull(c) then None else Some(RewriteChild(c, name))
    decreases c, 2
  {
    if IsObject(c) {
      RewriteAsWrittenIsRewrite(c, name);
    }
  }

  /** An object holding a single `null` fails the source's rewrite, while
      the rewrite that treats `null` as a value gives it a placeholder. */
  lemma NullMemberCounterexample()
    ensures RewriteAsWritten(JObj([Member("a", JNull)]), "").None?
    ensures Rewrite(JObj([Member("a", JNull)]), "") == JObj([Member("a", JStr("{{a}}"))])
  {
    var v := JObj([Member("a", JNull)]);
    assert HasNull(v.members[0].value);
    RewriteAsWrittenIsRewrite(v, "");
    assert RewriteChild(JNull, "a") == JStr("{{a}}") by {
      assert UnquotePrefix(JNull) == "";
      assert "" + "{{" + "a" + "}}" == "{{a}}";
    }
  }

  /** Fills every placeholder below the top from an environment of values by
      name; containers are walked as `Rewrite` walks them. */
  function Substitute(w: Json, parent: string, env: string -> Json): Json
    decreases w, 1
  {
    match w
    case JObj(ms) =>
      JObj(seq(|ms|, j requires 0 <= j < |ms| =>
        Member(ms[j].key, SubstituteChild(ms[j].value, ChildName(parent, ms[j].key), env))))
    case JArr(items) =>
      JArr(seq(|items|, j requires 0 <= j < |items| =>
        SubstituteChild(items[j], ChildName(parent, DecimalString(j)), env)))
    case _ => w
  }

  /** Only a placeholder of the child's own name, marked or not, is
      filled; any other value is kept. */
  function SubstituteChild(c: Json, name: string, env: string -> Json): Json
    decreases c, 2
  {
    if IsContainer(c) then Substitute(c, name, env)
    else if IsPlaceholderOf(c, name) then env(name)
    else c
  }

  /** The two placeholders a value of the given name can become. */
  predicate IsPlaceholderOf(c: Json, name: string) {
    c.JStr? && (c.s == "{{" + name + "}}" || c.s == Unquote.Marker + "{{" + name + "}}")
  }

  /** The environment holds each replaced value under its placeholder name. */
  predicate Agrees(v: Json, parent: string, env: string -> Json)
    decreases v, 1
  {
    match v
    case JObj(ms) => forall j :: 0 <= j < |ms| ==> AgreesChild(ms[j].value, ChildName(parent, ms[j].key), env)
    case JArr(items) => forall j :: 0 <= j < |items| ==> AgreesChild(items[j], ChildName(parent, DecimalString(j)), env)
    case _ => true
  }

  predicate AgreesChild(c: Json, name: string, env: string -> Json)
    decreases c, 2
  {
    if IsContainer(c) then Agrees(c, name, env) else env(name) == c
  }

  /** Round trip: filling the placeholders with the values they replaced
      gives back the original value. */
  lemma RewriteSubstitute(v: Json, parent: string, env: string -> Json)
    requires Agrees(v, parent, env)
    ensures Substitute(Rewrite(v, parent), parent, env) == v
    decreases v, 1
  {
    match v {
      case JObj(ms) =>
        var w := Rewrite(v, parent);
        forall j | 0 <= j < |ms|
          ensures SubstituteChild(w.members[j].value, ChildName(parent, ms[j].key), env) == ms[j].value
        {
          RewriteSubstituteChild(ms[j].value, ChildName(parent, ms[j].key), env);
        }
        assert Substitute(w, parent, env).members == ms;
      case JArr(items) =>
        var w := Rewrite(v, parent);
        forall j | 0 <= j < |items|
          ensures SubstituteChild(w.items[j], ChildName(parent, DecimalString(j)), env) == items[j]
        {
          RewriteSubstituteChild(items[j], ChildName(parent, DecimalString(j)), env);
        }
        assert Substitute(w, parent, env).items == items;
      case _ =>
    }
  }

  lemma RewriteSubstituteChild(c: Json, name: string, env: string -> Json)
    requires AgreesChild(c, name, env)
    ensures SubstituteChild(RewriteChild(c, name), name, env) == c
    decreases c, 2
  {
    if IsContainer(c) {
      RewriteSubstitute(c, name, env);
    } else {
      assert IsPlaceholderOf(Placeholder(c, name), name);
    }
  }

  /** The placeholder names of the generated examples: a nested key, an
      array position, and a key inside an array element. */
  lemma FixtureNames()
    ensures ChildName("category", "id") == "categoryId"
    ensures ChildName("photoUrls", DecimalString(1)) == "photoUrls1"
    ensures ChildName(ChildName("tags", DecimalString(0)), "name") == "tags0Name"
  {
    assert Capitalize("id") == "Id";
    assert DecimalString(1) == "1";
    assert Capitalize("1") == "1";
    assert DecimalString(0) == "0";
    assert Capitalize("0") == "0";
    assert ChildName("tags", "0") == "tags0";
    assert Capitalize("name") == "Name";
  }

  /** A number-typed example gets the marker, a plain string does not. */
  lemma MarkerExamples()
    ensures Placeholder(JStr("<integer>"), "id") == JStr("<unquote>{{id}}")
    ensures Placeholder(JStr("doggie"), "name") == JStr("{{name}}")
  {
    assert "<unquote>" + "{{" + "id" + "}}" == "<unquote>{{id}}";
    assert "" + "{{" + "name" + "}}" == "{{name}}";
  }

  /** `{{key}}`. */
  function KeyPlaceholder(key: string): string {
    "{{" + key + "}}"
  }

  /** Every parameter's value becomes the placeholder of its key. */
  function ParamsToKeys(ps: seq<Param>): (r: seq<Param>)
    ensures |r| == |ps|
    ensures forall i :: 0 <= i < |ps| ==> r[i].key == ps[i].key && r[i].value == KeyPlaceholder(ps[i].key)
  {
    seq(|ps|, i requires 0 <= i < |ps| => Param(ps[i].key, KeyPlaceholder(ps[i].key)))
  }

  /** The per-item step of `paramsUseKeysAsValues`. */
  function ParamsItem(item: Item): Item {
    item.(request := item.request.(variables := ParamsToKeys(item.request.variables),
                                   query := ParamsToKeys(item.request.query)))
  }

  /** `paramsUseKeysAsValues`: every leaf's path variables and query
      parameters take the placeholder of their key; keys, order and all else
      stay. */
  function ParamsUseKeysAsValues(c: Collection): (r: Collection)
    ensures r.name == c.name && SameShape(c.items, r.items)
    ensures Leaves(r.items) == MapItems(Leaves(c.items), ParamsItem)
  {
    MapLeavesLeaves(c.items, ParamsItem);
    c.(items := MapLeaves(c.items, ParamsItem))
  }

  /** Parameters already holding their key's placeholder are a fixed point,
      so the step is idempotent. */
  lemma ParamsUseKeysAsValuesIdempotent(c: Collection)
    ensures ParamsUseKeysAsValues(ParamsUseKeysAsValues(c)) == ParamsUseKeysAsValues(c)
  {
    forall item
      ensures ParamsItem(ParamsItem(item)) == ParamsItem(item)
    {
      assert ParamsToKeys(ParamsToKeys(item.request.variables)) == ParamsToKeys(item.request.variables);
      assert ParamsToKeys(ParamsToKeys(item.request.query)) == ParamsToKeys(item.request.query);
    }
    MapLeavesIdempotent(c.items, ParamsItem);
  }

  /** Per leaf: every variable and query value is its key's placeholder, and
      the method, path, body and auth are untouched. */
  lemma ParamsUseKeysAsValuesLeaves(c: Collection)
    ensures var before := Leaves(c.items);
            var after := Leaves(ParamsUseKeysAsValues(c).items);
            && |after| == |before|
            && forall i :: 0 <= i < |before| ==>
                 && after[i].request.(variables := [], query := []) == before[i].request.(variables := [], query := [])
                 && |after[i].request.variables| == |before[i].request.variables|
                 && |after[i].request.query| == |before[i].request.query|
                 && (forall k :: 0 <= k < |after[i].request.variables| ==>
                       after[i].request.variables[k] == Param(before[i].request.variables[k].key,
                                                              KeyPlaceholder(before[i].request.variables[k].key)))
                 && (forall k :: 0 <= k < |after[i].request.query| ==>
                       after[i].request.query[k] == Param(before[i].request.query[k].key,
                                                          KeyPlaceholder(before[i].request.query[k].key)))
  {
  }

  /** Whether `useKeysAsValues` rewrites an item: it has a body with
      non-empty raw text. */
  predicate HasRawBody(item: Item) {
    item.request.body.Some? && item.request.body.value.raw.Some? && item.request.body.value.raw.value != ""
  }

  /** How the `TypeError` thrown by listing the keys of `null` prints. */
  const NullKeysError := "TypeError: Cannot convert undefined or null to object"

  /** What rewriting one item's body throws, as it prints: the reader's
      error for an unreadable body, and the `null` error for a body the
      rewrite as written fails on. */
  function BodyError(item: Item, parse: string -> Result<Json>): Option<string> {
    if !HasRawBody(item) then None
    else
      match parse(item.request.body.value.raw.value)
      case Err(e) => Some(e)
      case Ok(v) => if RewriteAsWritten(v, "").None? then Some(NullKeysError) else None
  }

  /** A body fails exactly when it cannot be read or holds a `null`; a
      body that fails neither way is rewritten as `Rewrite` does. */
  lemma BodyErrorCases(item: Item, parse: string -> Result<Json>)
    ensures BodyError(item, parse).Some? <==>
              HasRawBody(item) && (parse(item.request.body.value.raw.value).Err?
                                   || HasNull(parse(item.request.body.value.raw.value).value))
    ensures HasRawBody(item) && parse(item.request.body.value.raw.value).Err? ==>
              BodyError(item, parse) == Some(parse(item.request.body.value.raw.value).error)
    ensures HasRawBody(item) && parse(item.request.body.value.raw.value).Ok? && HasNull(parse(item.request.body.value.raw.value).value) ==>
              BodyError(item, parse) == Some(NullKeysError)
    ensures HasRawBody(item) && BodyError(item, parse).None? ==>
              RewriteAsWritten(parse(item.request.body.value.raw.value).value, "")
              == Some(Rewrite(parse(item.request.body.value.raw.value).value, ""))
  {
    if HasRawBody(item) && parse(item.request.body.value.raw.value).Ok? {
      RewriteAsWrittenIsRewrite(parse(item.request.body.value.raw.value).value, "");
    }
  }

  /** The body rewrite of one item, given the JSON reader and writer, as
      the source performs it. A body that throws is left as it is here;
      `UseKeysAsValues` reports it. */
  function BodyToKeys(item: Item, parse: string -> Result<Json>, stringify: Json -> string): Item {
    if HasRawBody(item) && parse(item.request.body.value.raw.value).Ok?
       && RewriteAsWritten(parse(item.request.body.value.raw.value).value, "").Some? then
      var raw := Unquote.Unquote(stringify(RewriteAsWritten(parse(item.request.body.value.raw.value).value, "").value));
      item.(request := item.request.(body := Some(Body(Some(raw)))))
    else item
  }

  /** The error of the first leaf whose body throws, if any. */
  function FirstBodyError(items: seq<Item>, parse: string -> Result<Json>): (r: Option<string>)
    ensures r.None? <==> forall i :: 0 <= i < |items| ==> BodyError(items[i], parse).None?
    ensures r.Some? ==> exists k :: 0 <= k < |items| && BodyError(items[k], parse) == r
                                    && forall i :: 0 <= i < k ==> BodyError(items[i], parse).None?
  {
    if items == [] then None
    else if BodyError(items[0], parse).Some? then BodyError(items[0], parse)
    else
      var rest := FirstBodyError(items[1..], parse);
      assert forall i :: 1 <= i < |items| ==> items[i] == items[1..][i - 1];
      if rest.Some? then
        var k :| 0 <= k < |items[1..]| && BodyError(items[1..][k], parse) == rest
                 && forall i :: 0 <= i < k ==> BodyError(items[1..][i], parse).None?;
        assert BodyError(items[k + 1], parse) == rest;
        rest
      else rest
  }

  /** `useKeysAsValues`: every leaf with a non-empty raw body gets the body
      rewritten, serialized and unquoted. The first body in visiting order
      that cannot be read or holds a `null` makes the conversion fail with
      what it throws; otherwise each rewritten body is what `Rewrite`
      gives. */
  function UseKeysAsValues(c: Collection, parse: string -> Result<Json>, stringify: Json -> string): (r: Result<Collection>)
    ensures r.Err? <==> FirstBodyError(Leaves(c.items), parse).Some?
    ensures r.Err? ==> r.error == FirstBodyError(Leaves(c.items), parse).value
    ensures r.Ok? ==> r.value.name == c.name && SameShape(c.items, r.value.items)
    ensures r.Ok? ==> |Leaves(r.value.items)| == |Leaves(c.items)|
    ensures r.Ok? ==> forall i :: 0 <= i < |Leaves(c.items)| ==>
              var before := Leaves(c.items)[i];
              var after := Leaves(r.value.items)[i];
              && after.request.(body := None) == before.request.(body := None)
              && after.name == before.name && after.events == before.events
              && (HasRawBody(before) ==>
                    && parse(before.request.body.value.raw.value).Ok?
                    && !HasNull(parse(before.request.body.value.raw.value).value)
                    && after.request.body
                       == Some(Body(Some(Unquote.Unquote(stringify(Rewrite(parse(before.request.body.value.raw.value).value, "")))))))
              && (!HasRawBody(before) ==> after == before)
  {
    var step := (item: Item) => BodyToKeys(item, parse, stringify);
    match FirstBodyError(Leaves(c.items), parse)
    case Some(e) => Err(e)
    case None =>
      MapLeavesLeaves(c.items, step);
      forall item <- Leaves(c.items) {
        BodyErrorCases(item, parse);
      }
      Ok(c.(items := MapLeaves(c.items, step)))
  }

  /** The body rewrite with `null` treated as a value, as the source
      evidently intends: only an unreadable body is left alone. */
  function BodyToKeysCorrected(item: Item, parse: string -> Result<Json>, stringify: Json -> string): Item {
    if HasRawBody(item) && parse(item.request.body.value.raw.value).Ok? then
      var raw := Unquote.Unquote(stringify(Rewrite(parse(item.request.body.value.raw.value).value, "")));
      item.(request := item.request.(body := Some(Body(Some(raw)))))
    else item
  }

  /** The two body rewrites agree on every body the source does not throw
      on; a readable body holding `null` is exactly where the source throws
      and the corrected rewrite gives placeholders. */
  lemma BodyToKeysAgree(item: Item, parse: string -> Result<Json>, stringify: Json -> string)
    ensures BodyError(item, parse).None? ==> BodyToKeys(item, parse, stringify) == BodyToKeysCorrected(item, parse, stringify)
    ensures HasRawBody(item) && parse(item.request.body.value.raw.value).Ok? ==>
              (BodyError(item, parse).Some? <==> HasNull(parse(item.request.body.value.raw.value).value))
    ensures HasRawBody(item) && parse(item.request.body.value.raw.value).Ok? ==>
              BodyToKeysCorrected(item, parse, stringify).request.body
              == Some(Body(Some(Unquote.Unquote(stringify(Rewrite(parse(item.request.body.value.raw.value).value, ""))))))
  {
    BodyErrorCases(item, parse);
  }

  /** A body `{"a": null}` that the reader accepts: the source's rewrite
      throws the `null` error, the corrected one writes its placeholder. */
  lemma NullBodyThrows(item: Item, parse: string -> Result<Json>, stringify: Json -> string)
    requires HasRawBody(item) && parse(item.request.body.value.raw.value) == Ok(JObj([Member("a", JNull)]))
    ensures BodyError(item, parse) == Some(NullKeysError)
    ensures BodyToKeysCorrected(item, parse, stringify).request.body
            == Some(Body(Some(Unquote.Unquote(stringify(JObj([Member("a", JStr("{{a}}"))]))))))
  {
    NullMemberCounterexample();
  }
}
