/** `src/converter/converter.ts`: turning the result of the OpenAPI
    conversion into a collection, and building one collection per entry of
    a sets configuration. The conversion library itself is not modelled:
    what it hands back is an input, and so are the JSON reader and writer
    the body rewrite uses and the file system the script files are read
    from.

    A rejection carries the text it prints as: a thrown or rejected `Error`
    prints as `Error: ` and its message, while the reason string of a
    negative conversion result is rejected, and printed, bare. */
module Converter {
  import opened Wrappers
  import opened Json
  import opened Collections
  import opened Endpoints
  import opened Scripts
  import opened Ordering
  import opened Auth
  import opened Placeholders
  import opened Files
  import Unquote

  /** What the conversion library hands its callback: an error, or a
      result flag with a reason and the list of outputs. */
  datatype ConversionOutcome = ConversionOutcome(err: Option<string>, result: bool, reason: string, outputs: seq<Collection>)

  const OutputCountError := "Error while getting results. Conversion output array is not equal to 1"
  const SetsConfigError := "Sets config is undefined or is incorrect"

  /** The settlements the conversion callback attempts, in the order it
      attempts them. */
  function Settlements(o: ConversionOutcome): seq<Result<Collection>> {
    (if o.err.Some? then [Err(ErrorText(o.err.value))] else [])
    + (if !o.result then [Err(o.reason)] else [])
    + (if o.result then (if |o.outputs| == 1 then [Ok(o.outputs[0])] else []) + [Err(ErrorText(OutputCountError))] else [])
  }

  /** `convertToPostmanCollection`: a reported error wins, then a negative
      result with its reason; a positive result gives the single output, and
      any other number of outputs is an error. */
  function ConvertToPostmanCollection(o: ConversionOutcome): (r: Result<Collection>)
    ensures r.Ok? <==> o.err.None? && o.result && |o.outputs| == 1
    ensures r.Ok? ==> r.value == o.outputs[0]
    ensures o.err.Some? ==> r == Err(ErrorText(o.err.value))
    ensures o.err.None? && !o.result ==> r == Err(o.reason)
    ensures o.err.None? && o.result && |o.outputs| != 1 ==> r == Err(ErrorText(OutputCountError))
  {
    if o.err.Some? then Err(ErrorText(o.err.value))
    else if !o.result then Err(o.reason)
    else if |o.outputs| == 1 then Ok(o.outputs[0])
    else Err(ErrorText(OutputCountError))
  }

  /** A promise keeps the first settlement; the callback always attempts at
      least one, and `ConvertToPostmanCollection` is the first it attempts. */
  lemma ConvertFirstSettlement(o: ConversionOutcome)
    ensures |Settlements(o)| >= 1
    ensures ConvertToPostmanCollection(o) == Settlements(o)[0]
  {
  }

  /** `Convert`: the converted collection with request bodies rewritten to
      placeholders and path variables and query parameters set to their
      keys. The first body that cannot be read or holds a `null` rejects
      the conversion with what it throws. */
  function Convert(o: ConversionOutcome, parse: string -> Result<Json>, stringify: Json -> string): (r: Result<Collection>)
    ensures ConvertToPostmanCollection(o).Err? ==> r == Err(ConvertToPostmanCollection(o).error)
    ensures ConvertToPostmanCollection(o).Ok? ==>
              (r.Err? <==> FirstBodyError(Leaves(ConvertToPostmanCollection(o).value.items), parse).Some?)
    ensures ConvertToPostmanCollection(o).Ok? && r.Err? ==>
              r.error == FirstBodyError(Leaves(ConvertToPostmanCollection(o).value.items), parse).value
    ensures r.Ok? ==>
              var def := ConvertToPostmanCollection(o).value;
              && r.value.name == def.name && SameShape(def.items, r.value.items)
              && |Leaves(r.value.items)| == |Leaves(def.items)|
              && forall i :: 0 <= i < |Leaves(def.items)| ==>
                   var before := Leaves(def.items)[i];
                   var after := Leaves(r.value.items)[i];
                   && after.name == before.name && after.events == before.events
                   && after.request.httpMethod == before.request.httpMethod
                   && after.request.path == before.request.path
                   && after.request.auth == before.request.auth
                   && after.request.variables == ParamsToKeys(before.request.variables)
                   && after.request.query == ParamsToKeys(before.request.query)
                   && (!HasRawBody(before) ==> after.request.body == before.request.body)
                   && (HasRawBody(before) ==>
                         && parse(before.request.body.value.raw.value).Ok?
                         && !HasNull(parse(before.request.body.value.raw.value).value)
                         && after.request.body
                            == Some(Body(Some(Unquote.Unquote(stringify(Rewrite(parse(before.request.body.value.raw.value).value, "")))))))
  {
    var def :- ConvertToPostmanCollection(o);
    var keyed :- UseKeysAsValues(def, parse, stringify);
    SameShapeTrans(def.items, keyed.items, ParamsUseKeysAsValues(keyed).items);
    Ok(ParamsUseKeysAsValues(keyed))
  }

  /** The `sets` field of a sets configuration as read: absent or falsy, a
      value that is not an array, or an array of set entries. */
  datatype SetsField = SetsMissing | SetsNotArray | SetsArray(sets: seq<SetConfig>)

  /** One entry of a sets configuration. An empty `scriptsPath` or
      `templatePath` stands for an absent one. */
  datatype SetConfig = SetConfig(
    collectionName: string,
    scriptsPath: string,
    order: seq<OrderEntry>,
    auth: Option<CollectionAuth>,
    templatePath: string)

  /** One produced set: the entry's name and its collection. */
  datatype CollectionSet = CollectionSet(name: string, collection: Collection)

  /** `isSetsConfig`: a configuration with a non-empty array of sets. */
  predicate IsSetsConfig(config: Option<SetsField>) {
    config.Some? && config.value.SetsArray? && |config.value.sets| > 0
  }

  /** The auth step of one set: none without an auth entry; otherwise the
      entry's definition is applied, or the `Error` it throws stops the
      entry. */
  function AuthorizeSet(c: Collection, auth: Option<CollectionAuth>): (r: Result<Collection>)
    ensures auth.None? ==> r == Ok(c)
    ensures auth.Some? ==> (r.Err? <==> GetAuthDefinition(auth.value).Err?)
    ensures auth.Some? && r.Err? ==> r.error == ErrorText(GetAuthDefinition(auth.value).error)
    ensures auth.Some? && r.Ok? ==> r.value == SetAuthorization(c, GetAuthDefinition(auth.value).value, auth.value.forced)
  {
    if auth.None? then Ok(c)
    else
      match GetAuthDefinition(auth.value)
      case Err(e) => Err(ErrorText(e))
      case Ok(def) => Ok(SetAuthorization(c, def, auth.value.forced))
  }

  /** `<scriptsPath>/<subdir>/<name>.js`. */
  function SetScriptPath(scriptsPath: string, subdir: string, name: string): string {
    ScriptFilePath(scriptsPath, subdir, name + ".js")
  }

  /** The script entry of one endpoint: the contents of its pre-request
      and test files, empty where a file is missing. */
  function SetScript(fs: FileSystem, scriptsPath: string, name: string): (r: Script)
    ensures r.normalizedName == name
    ensures r.preRequest == GetFile(fs, SetScriptPath(scriptsPath, PreRequestDir, name))
    ensures r.test == GetFile(fs, SetScriptPath(scriptsPath, TestDir, name))
  {
    var pre := SetScriptPath(scriptsPath, PreRequestDir, name);
    var test := SetScriptPath(scriptsPath, TestDir, name);
    ReadIfExistsIsGetFile(fs, pre);
    ReadIfExistsIsGetFile(fs, test);
    Script(name, ReadIfExists(fs, pre), ReadIfExists(fs, test))
  }

  /** The script entries of one set: one per listed endpoint, named after
      it. */
  function SetScripts(fs: FileSystem, scriptsPath: string, c: Collection): (r: seq<Script>)
    ensures |r| == |Leaves(c.items)|
    ensures forall i :: 0 <= i < |r| ==> r[i] == SetScript(fs, scriptsPath, EndpointOf(Leaves(c.items)[i]).normalized)
  {
    var endpoints := ListEndpoints(c);
    seq(|endpoints|, i requires 0 <= i < |endpoints| => SetScript(fs, scriptsPath, endpoints[i].normalized))
  }

  /** Every leaf that `addScriptsToItem` can name finds an entry among the
      set's scripts, and each entry's name is what the script catalog
      listing would derive from its file name. */
  lemma SetScriptsCover(fs: FileSystem, scriptsPath: string, c: Collection)
    ensures forall i :: 0 <= i < |Leaves(c.items)| && LookupName(Leaves(c.items)[i]).Some? ==>
              FindScript(SetScripts(fs, scriptsPath, c), LookupName(Leaves(c.items)[i]).value).Some?
    ensures forall k :: 0 <= k < |SetScripts(fs, scriptsPath, c)| ==>
              ParseName(SetScripts(fs, scriptsPath, c)[k].normalizedName + ".js") == SetScripts(fs, scriptsPath, c)[k].normalizedName
  {
    var r := SetScripts(fs, scriptsPath, c);
    forall i | 0 <= i < |Leaves(c.items)| && LookupName(Leaves(c.items)[i]).Some?
      ensures FindScript(r, LookupName(Leaves(c.items)[i]).value).Some?
    {
      assert r[i].normalizedName == LookupName(Leaves(c.items)[i]).value;
    }
    forall k | 0 <= k < |r|
      ensures ParseName(r[k].normalizedName + ".js") == r[k].normalizedName
    {
      ParseNameJs(r[k].normalizedName);
    }
  }

  /** The script step of one set: scripts are attached only when both a
      scripts path and a template path are given; the template is read
      without an existence check. */
  function AttachSetScripts(c: Collection, entry: SetConfig, fs: FileSystem): (r: Result<Collection>)
    ensures entry.scriptsPath == "" || entry.templatePath == "" ==> r == Ok(c)
    ensures entry.scriptsPath != "" && entry.templatePath != "" ==>
              && (r.Err? <==> Leaves(c.items) == [])
              && (r.Err? ==> r.error == ErrorText(NoScriptsError))
              && (r.Ok? ==> r.value == AddScripts(c, SetScripts(fs, entry.scriptsPath, c), GetFile(fs, entry.templatePath)).value.0)
  {
    if entry.scriptsPath != "" && entry.templatePath != "" then
      match AddScripts(c, SetScripts(fs, entry.scriptsPath, c), GetFile(fs, entry.templatePath))
      case Err(e) => Err(ErrorText(e))
      case Ok(added) => Ok(added.0)
    else Ok(c)
  }

  /** One set: a fresh collection from the definition with bodies and
      parameters rewritten, renamed, authorized, given its scripts and
      reordered, unlisted items discarded. */
  function ProcessSet(def: Collection, entry: SetConfig, fs: FileSystem,
                      parse: string -> Result<Json>, stringify: Json -> string): (r: Result<CollectionSet>)
    ensures r.Ok? ==> r.value.name == entry.collectionName
    ensures r.Ok? ==> entry.order != []
    ensures r.Ok? ==> r.value.collection.name == (if entry.collectionName != "" then entry.collectionName else def.name)
    ensures r.Ok? ==> forall j :: 0 <= j < |r.value.collection.items| ==> r.value.collection.items[j].Leaf?
    ensures r.Ok? ==> forall item <- Leaves(r.value.collection.items) :: Listed(entry.order, item)
  {
    var keyed :- UseKeysAsValues(def, parse, stringify);
    var named := Rename(ParamsUseKeysAsValues(keyed), entry.collectionName);
    var authorized :- AuthorizeSet(named, entry.auth);
    var scripted :- AttachSetScripts(authorized, entry, fs);
    var ordered :- OrderSet(scripted, entry.order);
    OrderedListed(scripted, entry.order, ordered);
    Ok(CollectionSet(entry.collectionName, ordered))
  }

  /** The reorder of one set, unlisted items discarded; an empty order
      throws. */
  function OrderSet(c: Collection, order: seq<OrderEntry>): (r: Result<Collection>)
    ensures r.Err? <==> order == []
    ensures r.Err? ==> r.error == ErrorText(NoOrderError)
    ensures r.Ok? ==> Order(c, order, true) == Ok(r.value)
  {
    match Order(c, order, true)
    case Err(e) => Err(ErrorText(e))
    case Ok(ordered) => Ok(ordered)
  }

  /** Every leaf of a collection ordered with unlisted items discarded
      matches an order entry. */
  lemma OrderedListed(c: Collection, order: seq<OrderEntry>, ordered: Collection)
    requires Order(c, order, true) == Ok(ordered)
    ensures forall item <- Leaves(ordered.items) :: Listed(order, item)
  {
    OrderDiscard(Leaves(c.items), order);
  }

  /** `CreateSets` with every failure reported: the configuration is checked
      before the conversion runs; then the first set that fails stops the
      whole run with its error, and otherwise there is one set per entry, in
      order. */
  function CreateSets(config: Option<SetsField>, o: ConversionOutcome, fs: FileSystem,
                      parse: string -> Result<Json>, stringify: Json -> string): (r: Result<seq<CollectionSet>>)
    ensures !IsSetsConfig(config) ==> r == Err(ErrorText(SetsConfigError))
    ensures IsSetsConfig(config) && ConvertToPostmanCollection(o).Err? ==> r == Err(ConvertToPostmanCollection(o).error)
    ensures r.Ok? ==> IsSetsConfig(config) && ConvertToPostmanCollection(o).Ok?
    ensures r.Ok? ==>
              var sets := config.value.sets;
              && |r.value| == |sets|
              && forall i :: 0 <= i < |sets| ==>
                   && ProcessSet(ConvertToPostmanCollection(o).value, sets[i], fs, parse, stringify) == Ok(r.value[i])
                   && r.value[i].name == sets[i].collectionName
    ensures r.Err? && IsSetsConfig(config) && ConvertToPostmanCollection(o).Ok? ==>
              var sets := config.value.sets;
              var def := ConvertToPostmanCollection(o).value;
              exists k :: (0 <= k < |sets|
                && ProcessSet(def, sets[k], fs, parse, stringify) == Err(r.error)
                && forall j :: 0 <= j < k ==> ProcessSet(def, sets[j], fs, parse, stringify).Ok?)
  {
    if !IsSetsConfig(config) then Err(ErrorText(SetsConfigError))
    else
      var def :- ConvertToPostmanCollection(o);
      ProcessSets(s => ProcessSet(def, s, fs, parse, stringify), config.value.sets)
  }

  /** The sets in order, each produced by `step`, stopping at the first
      failure. */
  function ProcessSets(step: SetConfig -> Result<CollectionSet>, sets: seq<SetConfig>): (r: Result<seq<CollectionSet>>)
    ensures r.Ok? ==> |r.value| == |sets|
    ensures r.Ok? ==> forall i :: 0 <= i < |sets| ==> step(sets[i]) == Ok(r.value[i])
    ensures r.Err? ==> exists k :: (0 <= k < |sets|
              && step(sets[k]) == Err(r.error)
              && forall j :: 0 <= j < k ==> step(sets[j]).Ok?)
  {
    if sets == [] then Ok([])
    else
      var first :- step(sets[0]);
      var rest := ProcessSets(step, sets[1..]);
      if rest.Err? then
        var k :| 0 <= k < |sets[1..]|
          && step(sets[1..][k]) == Err(rest.error)
          && forall j :: 0 <= j < k ==> step(sets[1..][j]).Ok?;
        assert forall j :: 1 <= j < k + 1 ==> sets[j] == sets[1..][j - 1];
        assert step(sets[k + 1]) == Err(rest.error);
        Err(rest.error)
      else
        assert forall i :: 1 <= i < |sets| ==> sets[i] == sets[1..][i - 1];
        Ok([first] + rest.value)
  }

  /** Every leaf of the collection carries the given auth definition. */
  predicate AllAuthorized(c: Collection, d: Collections.Auth) {
    forall item <- Leaves(c.items) :: item.request.auth == Some(d)
  }

  /** With a forced auth entry every item of the produced set carries the
      entry's definition: neither the script step nor the reorder touches
      an item's auth. */
  lemma ProcessSetForcedAuth(def: Collection, entry: SetConfig, fs: FileSystem,
                             parse: string -> Result<Json>, stringify: Json -> string)
    requires entry.auth.Some? && entry.auth.value.forced && GetAuthDefinition(entry.auth.value).Ok?
    ensures ProcessSet(def, entry, fs, parse, stringify).Ok? ==>
              AllAuthorized(ProcessSet(def, entry, fs, parse, stringify).value.collection,
                            GetAuthDefinition(entry.auth.value).value)
  {
    if ProcessSet(def, entry, fs, parse, stringify).Err? {
      return;
    }
    var d := GetAuthDefinition(entry.auth.value).value;
    var keyed := UseKeysAsValues(def, parse, stringify).value;
    var named := Rename(ParamsUseKeysAsValues(keyed), entry.collectionName);
    var authorized := SetAuthorization(named, d, true);
    assert AuthorizeSet(named, entry.auth) == Ok(authorized);
    SetAuthorizationForced(named, d);
    var scripted := AttachSetScripts(authorized, entry, fs).value;
    ScriptStepKeepsAuth(authorized, entry, fs, d);
    var ordered := Order(scripted, entry.order, true).value;
    OrderKeepsAuth(scripted, entry.order, d);
    assert ProcessSet(def, entry, fs, parse, stringify).value.collection == ordered;
  }

  lemma ScriptStepKeepsAuth(c: Collection, entry: SetConfig, fs: FileSystem, d: Collections.Auth)
    requires AllAuthorized(c, d)
    ensures AttachSetScripts(c, entry, fs).Ok? ==> AllAuthorized(AttachSetScripts(c, entry, fs).value, d)
  {
    if entry.scriptsPath != "" && entry.templatePath != "" && AttachSetScripts(c, entry, fs).Ok? {
      var scripts := SetScripts(fs, entry.scriptsPath, c);
      var template := GetFile(fs, entry.templatePath);
      AddScriptsKeeps(c, scripts, template);
      var before := Leaves(c.items);
      var after := Leaves(AddScripts(c, scripts, template).value.0.items);
      forall i | 0 <= i < |before|
        ensures after[i].request.auth == before[i].request.auth
      {
        assert AttachKeeps(before[i], after[i]);
        assert after[i].request.(body := None).auth == before[i].request.(body := None).auth;
      }
      AuthCarried(before, after, d);
    }
  }

  /** Auth definitions carried position by position keep every item authorized. */
  lemma AuthCarried(before: seq<Item>, after: seq<Item>, d: Collections.Auth)
    requires |after| == |before|
    requires forall i :: 0 <= i < |before| ==> after[i].request.auth == before[i].request.auth
    requires forall item <- before :: item.request.auth == Some(d)
    ensures forall item <- after :: item.request.auth == Some(d)
  {
    forall item <- after
      ensures item.request.auth == Some(d)
    {
      var i :| 0 <= i < |after| && after[i] == item;
      assert before[i] in before;
    }
  }

  lemma OrderKeepsAuth(c: Collection, order: seq<OrderEntry>, d: Collections.Auth)
    requires AllAuthorized(c, d) && order != []
    ensures AllAuthorized(Order(c, order, true).value, d)
  {
    var out := Leaves(Order(c, order, true).value.items);
    var p := OrderPositions(Leaves(c.items), order, true);
    forall item <- out
      ensures item.request.auth == Some(d)
    {
      var j :| 0 <= j < |out| && out[j] == item;
      assert item == Leaves(c.items)[p[j]];
      assert Leaves(c.items)[p[j]] in Leaves(c.items);
    }
  }

  /** An empty order list fails a set that got that far with the order
      error. */
  lemma ProcessSetEmptyOrder(def: Collection, entry: SetConfig, fs: FileSystem,
                             parse: string -> Result<Json>, stringify: Json -> string)
    requires entry.order == [] && entry.auth.None? && entry.scriptsPath == ""
    requires FirstBodyError(Leaves(def.items), parse).None?
    ensures ProcessSet(def, entry, fs, parse, stringify) == Err(ErrorText(NoOrderError))
  {
  }

  /** An auth entry whose definition fails stops its set with that error. */
  lemma ProcessSetAuthError(def: Collection, entry: SetConfig, fs: FileSystem,
                            parse: string -> Result<Json>, stringify: Json -> string)
    requires entry.auth.Some? && GetAuthDefinition(entry.auth.value).Err?
    requires FirstBodyError(Leaves(def.items), parse).None?
    ensures ProcessSet(def, entry, fs, parse, stringify) == Err(ErrorText(GetAuthDefinition(entry.auth.value).error))
  {
  }

  /** The loop as written: each set is pushed onto one shared array, which
      is handed to `resolve` after every push. The first settlement wins, so
      a failure in the first set rejects, while a failure in a later set is
      lost and the caller receives the sets pushed before it. */
  function CreateSetsAsWritten(config: Option<SetsField>, o: ConversionOutcome, fs: FileSystem,
                               parse: string -> Result<Json>, stringify: Json -> string): (r: Result<seq<CollectionSet>>)
    ensures !IsSetsConfig(config) ==> r == Err(ErrorText(SetsConfigError))
    ensures IsSetsConfig(config) && ConvertToPostmanCollection(o).Err? ==> r == Err(ConvertToPostmanCollection(o).error)
    ensures IsSetsConfig(config) && ConvertToPostmanCollection(o).Ok? ==>
              var def := ConvertToPostmanCollection(o).value;
              var run := ProcessUntilFailure(s => ProcessSet(def, s, fs, parse, stringify), config.value.sets);
              r == if run.0 == [] && run.1.Some? then Err(run.1.value) else Ok(run.0)
  {
    if !IsSetsConfig(config) then Err(ErrorText(SetsConfigError))
    else
      var def :- ConvertToPostmanCollection(o);
      var run := ProcessUntilFailure(s => ProcessSet(def, s, fs, parse, stringify), config.value.sets);
      if run.0 == [] && run.1.Some? then Err(run.1.value) else Ok(run.0)
  }

  /** The sets pushed before the first failure, and that failure's error. */
  function ProcessUntilFailure(step: SetConfig -> Result<CollectionSet>, sets: seq<SetConfig>): (r: (seq<CollectionSet>, Option<string>))
    ensures |r.0| <= |sets|
    ensures forall i :: 0 <= i < |r.0| ==> step(sets[i]) == Ok(r.0[i])
    ensures r.1.None? ==> |r.0| == |sets|
    ensures r.1.Some? ==> |r.0| < |sets| && step(sets[|r.0|]) == Err(r.1.value)
  {
    if sets == [] then ([], None)
    else
      match step(sets[0])
      case Err(e) => ([], Some(e))
      case Ok(first) =>
        var rest := ProcessUntilFailure(step, sets[1..]);
        ([first] + rest.0, rest.1)
  }

  /** Both versions agree whenever no set fails or the first one does. */
  lemma CreateSetsAgree(config: Option<SetsField>, o: ConversionOutcome, fs: FileSystem,
                        parse: string -> Result<Json>, stringify: Json -> string)
    requires IsSetsConfig(config) && ConvertToPostmanCollection(o).Ok?
    requires var def := ConvertToPostmanCollection(o).value;
             var sets := config.value.sets;
             ProcessSet(def, sets[0], fs, parse, stringify).Err?
             || forall i :: 0 <= i < |sets| ==> ProcessSet(def, sets[i], fs, parse, stringify).Ok?
    ensures CreateSetsAsWritten(config, o, fs, parse, stringify) == CreateSets(config, o, fs, parse, stringify)
  {
    var def := ConvertToPostmanCollection(o).value;
    var step := s => ProcessSet(def, s, fs, parse, stringify);
    var sets := config.value.sets;
    assert step(sets[0]) == ProcessSet(def, sets[0], fs, parse, stringify);
    assert forall i :: 0 <= i < |sets| ==> step(sets[i]) == ProcessSet(def, sets[i], fs, parse, stringify);
    RunsAgree(step, sets);
  }

  /** The two loops over the same steps agree when the first step fails or
      none does. */
  lemma RunsAgree(step: SetConfig -> Result<CollectionSet>, sets: seq<SetConfig>)
    requires sets != []
    requires step(sets[0]).Err? || forall i :: 0 <= i < |sets| ==> step(sets[i]).Ok?
    ensures var run := ProcessUntilFailure(step, sets);
            var fixed := ProcessSets(step, sets);
            (if run.0 == [] && run.1.Some? then Err(run.1.value) else Ok(run.0)) == fixed
  {
    var run := ProcessUntilFailure(step, sets);
    var fixed := ProcessSets(step, sets);
    if step(sets[0]).Err? {
      assert run.0 == [] && run.1 == Some(step(sets[0]).error);
    } else {
      assert run.1.None?;
      assert fixed.Ok?;
      assert run.0 == fixed.value;
    }
  }

  /** A configuration whose second set has a basic auth entry without a
      password: the loop as written reports success with only the first set,
      while the fail-fast version reports the auth error. */
  lemma CreateSetsLostError(fs: FileSystem, parse: string -> Result<Json>, stringify: Json -> string)
    ensures CreateSetsAsWritten(Some(SetsArray([GoodSet(), IncompleteAuthSet()])), Converted(), fs, parse, stringify)
            == Ok([CollectionSet("first", Collection("first", []))])
    ensures CreateSets(Some(SetsArray([GoodSet(), IncompleteAuthSet()])), Converted(), fs, parse, stringify)
            == Err(ErrorText(BasicMissing))
  {
    var def := EmptyCollection();
    var step := s => ProcessSet(def, s, fs, parse, stringify);
    GoodSetProcessed(fs, parse, stringify);
    IncompleteAuthFails(fs, parse, stringify);
    SecondStepFails(step, GoodSet(), IncompleteAuthSet(), CollectionSet("first", Collection("first", [])), ErrorText(BasicMissing));
  }

  /** Two sets, the second of which fails: the loop as written keeps the
      first set and the error, the fail-fast loop only the error. */
  lemma SecondStepFails(step: SetConfig -> Result<CollectionSet>, a: SetConfig, b: SetConfig,
                        first: CollectionSet, e: string)
    requires step(a) == Ok(first) && step(b) == Err(e)
    ensures ProcessUntilFailure(step, [a, b]) == ([first], Some(e))
    ensures ProcessSets(step, [a, b]) == Err(e)
  {
    assert [a, b][1..] == [b];
    assert [first] + [] == [first];
  }

  lemma GoodSetProcessed(fs: FileSystem, parse: string -> Result<Json>, stringify: Json -> string)
    ensures ProcessSet(EmptyCollection(), GoodSet(), fs, parse, stringify) == Ok(CollectionSet("first", Collection("first", [])))
  {
    var def := EmptyCollection();
    assert Leaves(def.items) == [];
    var keyed := UseKeysAsValues(def, parse, stringify).value;
    assert keyed.items == [];
    var named := Rename(ParamsUseKeysAsValues(keyed), "first");
    assert named == Collection("first", []);
    var order := GoodSet().order;
    assert OrderItems([], order, true) == [];
  }

  lemma IncompleteAuthFails(fs: FileSystem, parse: string -> Result<Json>, stringify: Json -> string)
    ensures ProcessSet(EmptyCollection(), IncompleteAuthSet(), fs, parse, stringify) == Err(ErrorText(BasicMissing))
  {
    assert GetAuthDefinition(IncompleteAuthSet().auth.value) == Err(BasicMissing);
    assert Leaves(EmptyCollection().items) == [];
    ProcessSetAuthError(EmptyCollection(), IncompleteAuthSet(), fs, parse, stringify);
  }

  /** A conversion that succeeds with an empty collection. */
  function Converted(): ConversionOutcome {
    ConversionOutcome(None, true, "", [EmptyCollection()])
  }

  function EmptyCollection(): Collection {
    Collection("converted", [])
  }

  function GoodSet(): SetConfig {
    SetConfig("first", "", [OrderEntry("get", "pet")], None, "")
  }

  function IncompleteAuthSet(): SetConfig {
    SetConfig("second", "", [OrderEntry("get", "pet")],
              Some(CollectionAuth(Some(BasicType), Some(BasicAuth("user", "")), None, None, false)), "")
  }
}
