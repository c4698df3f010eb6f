/** `GetAuthDefinition` and `SetAuthorization` of
    `src/collection/collection-extension.ts`: building a request auth
    definition from the configured descriptor, and applying it to the
    collection's items.

    A descriptor's string fields are empty when the field is absent: the
    source treats an absent and an empty field alike. The type is kept as an
    option because an absent type prints as `undefined` in the error. */
module Auth {
  import opened Wrappers
  import opened Collections

  datatype BasicAuth = BasicAuth(username: string, password: string)
  datatype ApiKeyAuth = ApiKeyAuth(key: string, value: string, location: string)
  datatype BearerAuth = BearerAuth(token: string)

  /** A `CollectionAuth` descriptor. */
  datatype CollectionAuth = CollectionAuth(
    authType: Option<string>,
    basic: Option<BasicAuth>,
    apikey: Option<ApiKeyAuth>,
    bearer: Option<BearerAuth>,
    forced: bool)

  const BasicType := "basic"
  const BearerType := "bearer"
  const ApiKeyType := "apikey"
  const NoAuthType := "noauth"

  const BasicMissing := "Username or password is missing"
  const BearerMissing := "Bearer token is missing"
  const ApiKeyMissing := "Api key, key value or key location is missing"
  const UnsupportedPrefix := "Unsupported auth type: "

  /** The type as a template literal prints it. */
  function TypeText(t: Option<string>): string {
    if t.Some? then t.value else "undefined"
  }

  predicate BasicComplete(a: CollectionAuth) {
    a.basic.Some? && a.basic.value.password != "" && a.basic.value.username != ""
  }

  predicate BearerComplete(a: CollectionAuth) {
    a.bearer.Some? && a.bearer.value.token != ""
  }

  predicate ApiKeyComplete(a: CollectionAuth) {
    && a.apikey.Some? && a.apikey.value.value != "" && a.apikey.value.key != ""
    && a.apikey.value.location != ""
  }

  /** `GetAuthDefinition`: the definition for a supported and complete
      descriptor, with the entries in the fixed order `password, username`,
      `token` or `in, value, key`; otherwise the scheme's error. */
  function GetAuthDefinition(a: CollectionAuth): (r: Result<Collections.Auth>)
    ensures r.Ok? ==> a.authType == Some(r.value.authType)
    ensures r.Ok? ==> r.value.authType in {BasicType, BearerType, ApiKeyType}
    ensures a.authType == Some(BasicType) ==>
              if BasicComplete(a) then
                r == Ok(Collections.Auth(BasicType, [AuthParam("password", a.basic.value.password),
                                                     AuthParam("username", a.basic.value.username)]))
              else r == Err(BasicMissing)
    ensures a.authType == Some(BearerType) ==>
              if BearerComplete(a) then r == Ok(Collections.Auth(BearerType, [AuthParam("token", a.bearer.value.token)]))
              else r == Err(BearerMissing)
    ensures a.authType == Some(ApiKeyType) ==>
              if ApiKeyComplete(a) then
                r == Ok(Collections.Auth(ApiKeyType, [AuthParam("in", a.apikey.value.location),
                                                      AuthParam("value", a.apikey.value.value),
                                                      AuthParam("key", a.apikey.value.key)]))
              else r == Err(ApiKeyMissing)
    ensures a.authType !in {Some(BasicType), Some(BearerType), Some(ApiKeyType)} ==>
              r == Err(UnsupportedPrefix + TypeText(a.authType))
    ensures r.Ok? ==> forall i :: 0 <= i < |r.value.params| ==> r.value.params[i].value != ""
  {
    match a.authType
    case Some("basic") =>
      if !BasicComplete(a) then Err(BasicMissing)
      else Ok(Collections.Auth(BasicType, [AuthParam("password", a.basic.value.password),
                                           AuthParam("username", a.basic.value.username)]))
    case Some("bearer") =>
      if !BearerComplete(a) then Err(BearerMissing)
      else Ok(Collections.Auth(BearerType, [AuthParam("token", a.bearer.value.token)]))
    case Some("apikey") =>
      if !ApiKeyComplete(a) then Err(ApiKeyMissing)
      else Ok(Collections.Auth(ApiKeyType, [AuthParam("in", a.apikey.value.location),
                                            AuthParam("value", a.apikey.value.value),
                                            AuthParam("key", a.apikey.value.key)]))
    case _ => Err(UnsupportedPrefix + TypeText(a.authType))
  }

  /** The value of the first entry with the given key, or empty. */
  function ParamValue(params: seq<AuthParam>, key: string): (v: string)
    ensures v != "" ==> exists i :: 0 <= i < |params| && params[i] == AuthParam(key, v)
  {
    if params == [] then ""
    else if params[0].key == key then params[0].value
    else ParamValue(params[1..], key)
  }

  /** Reads a definition back into the descriptor it was built from. */
  function DescriptorOf(d: Collections.Auth): CollectionAuth {
    CollectionAuth(
      Some(d.authType),
      if d.authType == BasicType then Some(BasicAuth(ParamValue(d.params, "username"), ParamValue(d.params, "password"))) else None,
      if d.authType == ApiKeyType then
        Some(ApiKeyAuth(ParamValue(d.params, "key"), ParamValue(d.params, "value"), ParamValue(d.params, "in")))
      else None,
      if d.authType == BearerType then Some(BearerAuth(ParamValue(d.params, "token"))) else None,
      false)
  }

  /** The part of a descriptor the definition depends on: its type and the
      fields of that type's scheme. */
  function Essential(a: CollectionAuth): CollectionAuth {
    CollectionAuth(
      a.authType,
      if a.authType == Some(BasicType) then a.basic else None,
      if a.authType == Some(ApiKeyType) then a.apikey else None,
      if a.authType == Some(BearerType) then a.bearer else None,
      false)
  }

  /** A definition loses nothing of what it was built from: reading it back
      gives the descriptor's type and its scheme's fields. */
  lemma AuthDefinitionRoundTrip(a: CollectionAuth)
    requires GetAuthDefinition(a).Ok?
    ensures DescriptorOf(GetAuthDefinition(a).value) == Essential(a)
  {
    var d := GetAuthDefinition(a).value;
    if a.authType == Some(BasicType) {
      assert ParamValue(d.params, "password") == a.basic.value.password;
      assert ParamValue(d.params[1..], "username") == a.basic.value.username;
      assert ParamValue(d.params, "username") == a.basic.value.username;
    } else if a.authType == Some(ApiKeyType) {
      assert ParamValue(d.params, "in") == a.apikey.value.location;
      assert ParamValue(d.params[1..], "value") == a.apikey.value.value;
      assert ParamValue(d.params[2..], "key") == a.apikey.value.key;
      assert ParamValue(d.params[1..], "key") == a.apikey.value.key;
      assert ParamValue(d.params, "key") == a.apikey.value.key;
      assert ParamValue(d.params, "value") == a.apikey.value.value;
    } else {
      assert ParamValue(d.params, "token") == a.bearer.value.token;
    }
  }

  /** Rebuilding from the read-back descriptor gives the same definition. */
  lemma AuthDefinitionStable(a: CollectionAuth)
    requires GetAuthDefinition(a).Ok?
    ensures GetAuthDefinition(DescriptorOf(GetAuthDefinition(a).value)) == GetAuthDefinition(a)
  {
    AuthDefinitionRoundTrip(a);
  }

  /** The api-key definition of the auth examples: location under `in`, then
      value, then key. */
  lemma ApiKeyExample()
    ensures GetAuthDefinition(CollectionAuth(Some("apikey"), None, Some(ApiKeyAuth("k", "v", "header")), None, false))
            == Ok(Collections.Auth("apikey", [AuthParam("in", "header"), AuthParam("value", "v"), AuthParam("key", "k")]))
  {
  }

  /** Whether `SetAuthorization` writes the item: it already has an auth that
      is not `noauth`, or the write is forced. */
  predicate Overwrites(item: Item, forced: bool) {
    (item.request.auth.Some? && item.request.auth.value.authType != NoAuthType) || forced
  }

  /** The per-item step of `SetAuthorization`. */
  function AuthorizeItem(item: Item, def: Collections.Auth, forced: bool): (r: Item)
    ensures r.request == item.request.(auth := r.request.auth) && r.name == item.name && r.events == item.events
    ensures r.request.auth == if Overwrites(item, forced) then Some(def) else item.request.auth
  {
    if Overwrites(item, forced) then item.(request := item.request.(auth := Some(def))) else item
  }

  function AuthorizeStep(def: Collections.Auth, forced: bool): Item -> Item {
    (item: Item) => AuthorizeItem(item, def, forced)
  }

  /** `SetAuthorization`: every leaf gets the step, in place; folders and
      the collection name stay. */
  function SetAuthorization(c: Collection, def: Collections.Auth, forced: bool): (r: Collection)
    ensures r.name == c.name && SameShape(c.items, r.items)
    ensures Leaves(r.items) == MapItems(Leaves(c.items), AuthorizeStep(def, forced))
  {
    MapLeavesLeaves(c.items, AuthorizeStep(def, forced));
    c.(items := MapLeaves(c.items, AuthorizeStep(def, forced)))
  }

  /** Per leaf: the auth is the new definition exactly where the item had a
      non-`noauth` auth or the write is forced; nothing else changes. */
  lemma SetAuthorizationLeaves(c: Collection, def: Collections.Auth, forced: bool)
    ensures var before := Leaves(c.items);
            var after := Leaves(SetAuthorization(c, def, forced).items);
            && |after| == |before|
            && forall i :: 0 <= i < |before| ==>
                 && after[i].request.auth == (if Overwrites(before[i], forced) then Some(def) else before[i].request.auth)
                 && after[i].request.(auth := None) == before[i].request.(auth := None)
                 && after[i].name == before[i].name && after[i].events == before[i].events
  {
  }

  /** A forced write leaves every leaf with the definition. */
  lemma SetAuthorizationForced(c: Collection, def: Collections.Auth)
    ensures forall item <- Leaves(SetAuthorization(c, def, true).items) :: item.request.auth == Some(def)
  {
    var after := Leaves(SetAuthorization(c, def, true).items);
    forall item <- after
      ensures item.request.auth == Some(def)
    {
      var i :| 0 <= i < |after| && after[i] == item;
    }
  }

  /** Unforced, a `noauth` leaf keeps its auth and a `basic` leaf gets the
      definition. */
  lemma SetAuthorizationNoAuthKept(item: Item, def: Collections.Auth)
    ensures item.request.auth.Some? && item.request.auth.value.authType == NoAuthType ==>
              AuthorizeItem(item, def, false) == item
    ensures item.request.auth.Some? && item.request.auth.value.authType == BasicType ==>
              AuthorizeItem(item, def, false).request.auth == Some(def)
    ensures item.request.auth.None? ==> AuthorizeItem(item, def, false) == item
  {
  }

  /** Applying the same definition twice is applying it once. */
  lemma SetAuthorizationIdempotent(c: Collection, def: Collections.Auth, forced: bool)
    ensures SetAuthorization(SetAuthorization(c, def, forced), def, forced) == SetAuthorization(c, def, forced)
  {
    var f := AuthorizeStep(def, forced);
    forall item
      ensures f(f(item)) == f(item)
    {
      var once := AuthorizeItem(item, def, forced);
      if Overwrites(item, forced) {
        assert AuthorizeItem(once, def, forced) == once;
      }
    }
    MapLeavesIdempotent(c.items, f);
  }
}
