/** `addScriptsToItem` and `AddScripts` of
    `src/collection/collection-extension.ts`: script entries are matched to
    items by normalized endpoint name and attached as lifecycle events. With a
    pre-request template, the matched item's body is replaced by a
    `{{requestBody}}` reference and the entry's pre-request content is
    rewritten through the template; the rewritten content is stored back in
    the entry, so a later item with the same name sees it. */
module Scripts {
  import opened Wrappers
  import opened Strings
  import opened Collections
  import opened Endpoints
  import opened Template

  /** A `PreRequestTestScript` entry. */
  datatype Script = Script(normalizedName: string, preRequest: string, test: string)

  const PreRequestListen := "prerequest"
  const TestListen := "test"
  const RequestBodyReference := "{{requestBody}}"
  const NoScriptsError := "Scripts not provided or provided config contains no script entries"

  /** `scripts.find` by name: the position of the first entry whose name is
      exactly `name`. */
  function FindScript(scripts: seq<Script>, name: string): (r: Option<nat>)
    ensures r.Some? ==> r.value < |scripts| && scripts[r.value].normalizedName == name
    ensures r.Some? ==> forall j :: 0 <= j < r.value ==> scripts[j].normalizedName != name
    ensures r.None? <==> forall j :: 0 <= j < |scripts| ==> scripts[j].normalizedName != name
  {
    if scripts == [] then None
    else if scripts[0].normalizedName == name then Some(0)
    else
      var rest := FindScript(scripts[1..], name);
      if rest.None? then None else Some(rest.value + 1)
  }

  /** The name `addScriptsToItem` looks up: none for an item whose path is
      absent or joins to the empty string. */
  function LookupName(item: Item): (r: Option<string>)
    ensures r.Some? <==> item.request.path.Some? && Join(item.request.path.value, "/") != []
    ensures r.Some? ==> r.value == EndpointOf(item).normalized
  {
    if item.request.path.None? then None
    else
      var path := Lower(Join(item.request.path.value, "/"));
      if path == [] then None else Some(NormalizedEndpointName(item.request.httpMethod, path))
  }

  /** The events added for one entry: a pre-request event for non-empty
      pre-request content, then a test event for non-empty test content. */
  function ScriptEvents(preRequest: string, test: string): (r: seq<Event>)
    ensures |r| == (if preRequest != "" then 1 else 0) + (if test != "" then 1 else 0)
    ensures forall i :: 0 <= i < |r| ==> r[i].exec != ""
    ensures preRequest != "" ==> r[0] == Event(PreRequestListen, preRequest)
    ensures test != "" ==> r[|r| - 1] == Event(TestListen, test)
  {
    (if preRequest != "" then [Event(PreRequestListen, preRequest)] else [])
    + (if test != "" then [Event(TestListen, test)] else [])
  }

  /** A body's raw text as the template sees it: an absent text reads as
      `undefined`. */
  function RawOrUndefined(b: Body): string {
    if b.raw.Some? then b.raw.value else UndefinedPath
  }

  /** Whether the template rewrites a matched item: a template is given and
      the item has a body. */
  predicate TemplateApplies(item: Item, template: string) {
    template != "" && item.request.body.Some?
  }

  /** Attaching the entry at `k` to an item: its events are appended, and
      when the template applies the body becomes a reference and the entry's
      pre-request content is replaced by the interpolated one. */
  function AttachEntry(item: Item, scripts: seq<Script>, k: nat, template: string): (r: (Item, seq<Script>))
    requires k < |scripts|
    ensures |r.1| == |scripts|
    ensures forall j :: 0 <= j < |scripts| && j != k ==> r.1[j] == scripts[j]
    ensures r.1[k].normalizedName == scripts[k].normalizedName && r.1[k].test == scripts[k].test
    ensures r.0.name == item.name
    ensures r.0.events == item.events + ScriptEvents(r.1[k].preRequest, scripts[k].test)
    ensures TemplateApplies(item, template) ==>
              && r.0.request == item.request.(body := Some(Body(Some(RequestBodyReference))))
              && r.1[k].preRequest
                 == Interpolate(template, RawOrUndefined(item.request.body.value), scripts[k].preRequest)
    ensures !TemplateApplies(item, template) ==> r.0.request == item.request && r.1 == scripts
  {
    var entry := scripts[k];
    if TemplateApplies(item, template) then
      var pre := Interpolate(template, RawOrUndefined(item.request.body.value), entry.preRequest);
      var request := item.request.(body := Some(Body(Some(RequestBodyReference))));
      (item.(request := request, events := item.events + ScriptEvents(pre, entry.test)),
       scripts[k := entry.(preRequest := pre)])
    else
      (item.(events := item.events + ScriptEvents(entry.preRequest, entry.test)), scripts)
  }

  /** `addScriptsToItem`: an item without a lookup name, or whose name no
      entry carries, is left as it is together with the entries; otherwise
      the first entry with its name is attached. */
  function AttachScripts(item: Item, scripts: seq<Script>, template: string): (r: (Item, seq<Script>))
    ensures LookupName(item).None? ==> r == (item, scripts)
    ensures LookupName(item).Some? && FindScript(scripts, LookupName(item).value).None? ==> r == (item, scripts)
    ensures LookupName(item).Some? && FindScript(scripts, LookupName(item).value).Some? ==>
              r == AttachEntry(item, scripts, FindScript(scripts, LookupName(item).value).value, template)
  {
    match LookupName(item)
    case None => (item, scripts)
    case Some(name) =>
      match FindScript(scripts, name)
      case None => (item, scripts)
      case Some(k) => AttachEntry(item, scripts, k, template)
  }

  /** The per-item step with the template fixed. */
  function AttachStep(template: string): (Item, seq<Script>) -> (Item, seq<Script>) {
    (item: Item, scripts: seq<Script>) => AttachScripts(item, scripts, template)
  }

  /** `AddScripts`: fails on an empty entry list; otherwise attaches scripts
      to every leaf in visiting order, threading the entry list, and keeps
      the collection's folders and name. */
  function AddScripts(c: Collection, scripts: seq<Script>, template: string): (r: Result<(Collection, seq<Script>)>)
    ensures r.Err? <==> scripts == []
    ensures r.Err? ==> r.error == NoScriptsError
    ensures r.Ok? ==> r.value.0.name == c.name && SameShape(c.items, r.value.0.items)
    ensures r.Ok? ==> Leaves(r.value.0.items) == FoldItems(Leaves(c.items), scripts, AttachStep(template)).0
    ensures r.Ok? ==> r.value.1 == FoldItems(Leaves(c.items), scripts, AttachStep(template)).1
  {
    if scripts == [] then Err(NoScriptsError)
    else
      var walked := MapLeavesWith(c.items, scripts, AttachStep(template));
      MapLeavesWithLeaves(c.items, scripts, AttachStep(template));
      Ok((c.(items := walked.0), walked.1))
  }

  /** What attaching keeps of an item: its name, its request apart from the
      body, and its events, which can only grow at the end. */
  predicate AttachKeeps(before: Item, after: Item) {
    && after.name == before.name
    && after.request.(body := None) == before.request.(body := None)
    && |after.events| >= |before.events| && after.events[..|before.events|] == before.events
  }

  /** Per leaf, `AddScripts` only rewrites the body and appends events. */
  lemma AddScriptsKeeps(c: Collection, scripts: seq<Script>, template: string)
    requires scripts != []
    ensures AddScripts(c, scripts, template).Ok?
    ensures var before := Leaves(c.items);
            var after := Leaves(AddScripts(c, scripts, template).value.0.items);
            && |after| == |before|
            && forall i :: 0 <= i < |before| ==> AttachKeeps(before[i], after[i])
  {
    var step := AttachStep(template);
    forall item, t
      ensures AttachKeeps(item, step(item, t).0)
    {
      assert step(item, t) == AttachScripts(item, t, template);
    }
    FoldItemsPointwise(Leaves(c.items), scripts, step, AttachKeeps);
  }

  /** Without a template an item's attachment depends only on the entries,
      which are never changed. */
  function AttachPlain(item: Item, scripts: seq<Script>): Item {
    match LookupName(item)
    case None => item
    case Some(name) =>
      match FindScript(scripts, name)
      case None => item
      case Some(k) => item.(events := item.events + ScriptEvents(scripts[k].preRequest, scripts[k].test))
  }

  lemma {:induction false} FoldWithoutTemplate(items: seq<Item>, scripts: seq<Script>)
    ensures FoldItems(items, scripts, AttachStep("")).1 == scripts
    ensures FoldItems(items, scripts, AttachStep("")).0 == MapItems(items, (item: Item) => AttachPlain(item, scripts))
  {
    if items != [] {
      var step := AttachStep("");
      assert step(items[0], scripts) == AttachScripts(items[0], scripts, "");
      assert step(items[0], scripts).1 == scripts;
      assert step(items[0], scripts).0 == AttachPlain(items[0], scripts);
      FoldWithoutTemplate(items[1..], scripts);
    }
  }

  /** Without a template, `AddScripts` is a plain map over the leaves: each
      item gets the events of the first entry with its name, and the entries
      are left as they were. */
  lemma AddScriptsWithoutTemplate(c: Collection, scripts: seq<Script>)
    requires scripts != []
    ensures AddScripts(c, scripts, "").Ok?
    ensures AddScripts(c, scripts, "").value.1 == scripts
    ensures Leaves(AddScripts(c, scripts, "").value.0.items)
            == MapItems(Leaves(c.items), (item: Item) => AttachPlain(item, scripts))
  {
    FoldWithoutTemplate(Leaves(c.items), scripts);
  }

  /** The attachment scenario: an entry `post-pet` with pre-request `A` and
      test `B` gives a `POST /pet` item exactly two events, pre-request
      first. */
  lemma AttachScenario(item: Item)
    requires item.request.httpMethod == "POST" && item.request.path == Some(["pet"]) && item.events == []
    ensures AttachScripts(item, [Script("post-pet", "A", "B")], "").0.events
            == [Event(PreRequestListen, "A"), Event(TestListen, "B")]
  {
    var scripts := [Script("post-pet", "A", "B")];
    PostPetLookup(item);
    assert FindScript(scripts, "post-pet") == Some(0);
    AttachFound(item, scripts, "");
    ScriptEventsBoth("A", "B");
    assert [] + [Event(PreRequestListen, "A"), Event(TestListen, "B")] == [Event(PreRequestListen, "A"), Event(TestListen, "B")];
  }

  /** An item whose entry is found and that the template leaves alone gets
      that entry's events appended. */
  lemma AttachFound(item: Item, scripts: seq<Script>, template: string)
    ensures LookupName(item).Some? && FindScript(scripts, LookupName(item).value).Some? && !TemplateApplies(item, template) ==>
              var k := FindScript(scripts, LookupName(item).value).value;
              AttachScripts(item, scripts, template).0.events == item.events + ScriptEvents(scripts[k].preRequest, scripts[k].test)
  {
  }

  /** Both contents present: a pre-request event, then a test event. */
  lemma ScriptEventsBoth(preRequest: string, test: string)
    requires preRequest != "" && test != ""
    ensures ScriptEvents(preRequest, test) == [Event(PreRequestListen, preRequest), Event(TestListen, test)]
  {
  }

  lemma PostPetLookup(item: Item)
    requires item.request.httpMethod == "POST" && item.request.path == Some(["pet"])
    ensures LookupName(item) == Some("post-pet")
  {
    assert Join(["pet"], "/") == "pet";
    PostPetName();
  }

  lemma PostPetName()
    ensures Lower("pet") == "pet"
    ensures NormalizedEndpointName("POST", "pet") == "post-pet"
  {
    assert Lower("pet") == "pet" by {
      LowerOfLower("pet");
    }
    assert Lower("POST") == "post" by { }
    assert LettersOnlyWithDash(Lower("pet")) == "pet" by {
      FilterIdentity("pet", IsLetterOrDash);
    }
    NormalizedParts("POST", "pet");
    PostPetText();
  }

  lemma PostPetText()
    ensures "post" + "-" + "pet" == "post-pet"
  {
  }
}
