/** The command layer of `src/executor/executor.ts`: the endpoint tables of
    the list command, the request-header checks and precedence for a remote
    input, the checks each command makes before converting, the steps the
    convert command applies to the converted collection, and the files the
    commands write.

    A command's decision is a `Plan`: the message it stops with, or the
    options it converts with and where the OpenAPI document comes from.
    Whether the input is a URL, the converter's result and the serializer
    are parameters; the fetch itself is not modelled. Printed errors are
    the text after the logger's prefix; an `Error` prints as `Error: ` and
    its message. The converter's rejections arrive as the text they print
    as, so a bare reason string prints without that prefix. */
module Executor {
  import opened Wrappers
  import opened Strings
  import opened Collections
  import opened Endpoints
  import opened Scripts
  import opened Ordering
  import opened Auth
  import opened Files
  import Converter
  import Http

  // ---------------------------------------------------------------------
  // Endpoint tables (`getMarkdown`, `getCSV`)
  // ---------------------------------------------------------------------

  /** Text lines, each ended by a newline. */
  function Lines(ls: seq<string>): string {
    if ls == [] then "" else ls[0] + "\n" + Lines(ls[1..])
  }

  lemma LinesCons(x: string, rest: seq<string>)
    ensures Lines([x] + rest) == x + "\n" + Lines(rest)
  {
    assert ([x] + rest)[1..] == rest;
  }

  lemma JoinCons(x: string, rest: seq<string>, sep: string)
    requires rest != []
    ensures Join([x] + rest, sep) == x + sep + Join(rest, sep)
  {
    assert ([x] + rest)[1..] == rest;
  }

  /** Newline-ended lines are the lines joined by newlines, plus an empty
      last piece. */
  lemma {:induction false} LinesJoin(ls: seq<string>)
    ensures Lines(ls) == Join(ls + [""], "\n")
  {
    if ls != [] {
      LinesJoin(ls[1..]);
      assert ls + [""] == [ls[0]] + (ls[1..] + [""]);
      JoinCons(ls[0], ls[1..] + [""], "\n");
    }
  }

  /** Splitting at newlines gives the lines back, then an empty piece. */
  lemma LinesSplit(ls: seq<string>)
    requires forall i :: 0 <= i < |ls| ==> '\n' !in ls[i]
    ensures Split(Lines(ls), '\n') == ls + [""]
  {
    LinesJoin(ls);
    var parts := ls + [""];
    assert forall i :: 0 <= i < |parts| ==> '\n' !in parts[i] by {
      forall i | 0 <= i < |parts|
        ensures '\n' !in parts[i]
      {
        if i < |ls| {
          assert parts[i] == ls[i];
        }
      }
    }
    SplitJoin(parts, '\n');
  }

  /** The listed values of an endpoint, normalized name last when shown. */
  function Cells(e: EndpointInfo, normalized: bool): (r: seq<string>)
    ensures |r| == if normalized then 3 else 2
  {
    if normalized then [e.actual.httpMethod, e.actual.path, e.normalized]
    else [e.actual.httpMethod, e.actual.path]
  }

  /** No listed value of the endpoint holds the character. */
  predicate CellsFree(e: EndpointInfo, c: char) {
    c !in e.actual.httpMethod && c !in e.actual.path && c !in e.normalized
  }

  function MarkdownHeader(normalized: bool): string {
    if normalized then "|Method|Path|Normalized|" else "|Method|Path|"
  }

  function MarkdownSubheader(normalized: bool): string {
    if normalized then "|---|---|---|" else "|---|---|"
  }

  /** One table row, without its newline. */
  function MarkdownRow(e: EndpointInfo, normalized: bool): string {
    if normalized then "|" + e.actual.httpMethod + "|" + e.actual.path + "|" + e.normalized + "|"
    else "|" + e.actual.httpMethod + "|" + e.actual.path + "|"
  }

  /** A row is its cells between bars: splitting at the bars gives an empty
      piece, the cells and an empty piece. */
  lemma MarkdownRowCells(e: EndpointInfo, normalized: bool)
    requires CellsFree(e, '|')
    ensures Split(MarkdownRow(e, normalized), '|') == [""] + Cells(e, normalized) + [""]
  {
    var m, p, n := e.actual.httpMethod, e.actual.path, e.normalized;
    var parts := [""] + Cells(e, normalized) + [""];
    if normalized {
      assert parts == [""] + [m, p, n, ""];
      JoinCons("", [m, p, n, ""], "|");
      assert [m, p, n, ""] == [m] + [p, n, ""];
      JoinCons(m, [p, n, ""], "|");
      assert [p, n, ""] == [p] + [n, ""];
      JoinCons(p, [n, ""], "|");
      assert [n, ""] == [n] + [""];
      JoinCons(n, [""], "|");
      assert Join(parts, "|") == MarkdownRow(e, normalized);
    } else {
      assert parts == [""] + [m, p, ""];
      JoinCons("", [m, p, ""], "|");
      assert [m, p, ""] == [m] + [p, ""];
      JoinCons(m, [p, ""], "|");
      assert [p, ""] == [p] + [""];
      JoinCons(p, [""], "|");
      assert Join(parts, "|") == MarkdownRow(e, normalized);
    }
    SplitJoin(parts, '|');
  }

  function MarkdownRowList(eps: seq<EndpointInfo>, normalized: bool): (r: seq<string>)
    ensures |r| == |eps| && forall i :: 0 <= i < |eps| ==> r[i] == MarkdownRow(eps[i], normalized)
  {
    seq(|eps|, i requires 0 <= i < |eps| => MarkdownRow(eps[i], normalized))
  }

  /** The table body: one newline-ended row per endpoint, in order. */
  function MarkdownRows(eps: seq<EndpointInfo>, normalized: bool): (r: string)
    ensures r == Lines(MarkdownRowList(eps, normalized))
  {
    if eps == [] then ""
    else
      assert MarkdownRowList(eps, normalized)[1..] == MarkdownRowList(eps[1..], normalized);
      MarkdownRow(eps[0], normalized) + "\n" + MarkdownRows(eps[1..], normalized)
  }

  /** The Markdown table of a list of endpoints. */
  function MarkdownOf(eps: seq<EndpointInfo>, normalized: bool): (r: string)
    ensures r == Lines([MarkdownHeader(normalized), MarkdownSubheader(normalized)] + MarkdownRowList(eps, normalized))
  {
    var rows := MarkdownRowList(eps, normalized);
    var header, sub := MarkdownHeader(normalized), MarkdownSubheader(normalized);
    assert [header, sub] + rows == [header] + ([sub] + rows);
    LinesCons(header, [sub] + rows);
    LinesCons(sub, rows);
    header + "\n" + sub + "\n" + MarkdownRows(eps, normalized)
  }

  /** `getMarkdown`: a header line, a separator line, then one line per
      listed endpoint, every line ended by a newline. */
  function GetMarkdown(c: Collection, normalized: bool): (r: string)
    ensures r == Lines([MarkdownHeader(normalized), MarkdownSubheader(normalized)]
                       + MarkdownRowList(ListEndpoints(c), normalized))
  {
    MarkdownOf(ListEndpoints(c), normalized)
  }

  /** Reading the Markdown table back: its lines are the two header lines,
      one row per endpoint and an empty last piece, and each row splits at
      the bars into that endpoint's cells. */
  lemma MarkdownTable(eps: seq<EndpointInfo>, normalized: bool)
    requires forall e <- eps :: CellsFree(e, '\n') && CellsFree(e, '|')
    ensures var lines := Split(MarkdownOf(eps, normalized), '\n');
            && |lines| == |eps| + 3
            && lines[0] == MarkdownHeader(normalized) && lines[1] == MarkdownSubheader(normalized)
            && lines[|eps| + 2] == ""
            && forall i :: 0 <= i < |eps| ==> Split(lines[i + 2], '|') == [""] + Cells(eps[i], normalized) + [""]
  {
    var rows := MarkdownRowList(eps, normalized);
    var all := [MarkdownHeader(normalized), MarkdownSubheader(normalized)] + rows;
    forall i | 0 <= i < |eps|
      ensures '\n' !in rows[i] && Split(rows[i], '|') == [""] + Cells(eps[i], normalized) + [""]
    {
      assert eps[i] in eps;
      MarkdownRowCells(eps[i], normalized);
    }
    forall i | 0 <= i < |all|
      ensures '\n' !in all[i]
    {
      if i >= 2 {
        assert all[i] == rows[i - 2];
      }
    }
    LinesSplit(all);
    var lines := Split(MarkdownOf(eps, normalized), '\n');
    assert lines == all + [""];
    forall i | 0 <= i < |eps|
      ensures Split(lines[i + 2], '|') == [""] + Cells(eps[i], normalized) + [""]
    {
      assert lines[i + 2] == rows[i];
    }
  }

  /** One CSV line, without its newline. */
  function CsvRow(e: EndpointInfo, normalized: bool): string {
    if normalized then e.actual.httpMethod + ";" + e.actual.path + ";" + e.normalized
    else e.actual.httpMethod + ";" + e.actual.path
  }

  /** A CSV line splits at the semicolons into the endpoint's cells. */
  lemma CsvRowCells(e: EndpointInfo, normalized: bool)
    requires CellsFree(e, ';')
    ensures Split(CsvRow(e, normalized), ';') == Cells(e, normalized)
  {
    var m, p, n := e.actual.httpMethod, e.actual.path, e.normalized;
    var parts := Cells(e, normalized);
    if normalized {
      assert parts == [m] + [p, n];
      JoinCons(m, [p, n], ";");
      assert [p, n] == [p] + [n];
      JoinCons(p, [n], ";");
    } else {
      assert parts == [m] + [p];
      JoinCons(m, [p], ";");
    }
    assert Join(parts, ";") == CsvRow(e, normalized);
    SplitJoin(parts, ';');
  }

  function CsvRowList(eps: seq<EndpointInfo>, normalized: bool): (r: seq<string>)
    ensures |r| == |eps| && forall i :: 0 <= i < |eps| ==> r[i] == CsvRow(eps[i], normalized)
  {
    seq(|eps|, i requires 0 <= i < |eps| => CsvRow(eps[i], normalized))
  }

  function CsvRows(eps: seq<EndpointInfo>, normalized: bool): (r: string)
    ensures r == Lines(CsvRowList(eps, normalized))
  {
    if eps == [] then ""
    else
      assert CsvRowList(eps, normalized)[1..] == CsvRowList(eps[1..], normalized);
      CsvRow(eps[0], normalized) + "\n" + CsvRows(eps[1..], normalized)
  }

  /** `getCSV`: one newline-ended line per listed endpoint, in order, and
      no header. */
  function GetCsv(c: Collection, normalized: bool): (r: string)
    ensures r == Lines(CsvRowList(ListEndpoints(c), normalized))
  {
    CsvRows(ListEndpoints(c), normalized)
  }

  /** Reading the CSV back: one line per endpoint and an empty last piece;
      each line splits at the semicolons into that endpoint's cells. */
  lemma CsvTable(c: Collection, normalized: bool)
    requires forall e <- ListEndpoints(c) :: CellsFree(e, '\n') && CellsFree(e, ';')
    ensures var lines := Split(GetCsv(c, normalized), '\n');
            var eps := ListEndpoints(c);
            && |lines| == |eps| + 1 && lines[|eps|] == ""
            && forall i :: 0 <= i < |eps| ==> Split(lines[i], ';') == Cells(eps[i], normalized)
  {
    var eps := ListEndpoints(c);
    var rows := CsvRowList(eps, normalized);
    forall i | 0 <= i < |eps|
      ensures '\n' !in rows[i] && Split(rows[i], ';') == Cells(eps[i], normalized)
    {
      assert eps[i] in eps;
      CsvRowCells(eps[i], normalized);
    }
    LinesSplit(rows);
  }

  // ---------------------------------------------------------------------
  // Request headers for a remote input
  // ---------------------------------------------------------------------

  /** The header options of a command; an empty string is an absent
      option. */
  datatype HeaderOptions = HeaderOptions(username: string, password: string, xApiKey: string, bearerToken: string)

  const EitherError := "Please use either basic auth, X-API-KEY or Bearer token"
  const PasswordMissing := "Basic auth password is missing"
  const UsernameMissing := "Basic auth username is missing"

  predicate HasBasic(h: HeaderOptions) {
    h.username != "" || h.password != ""
  }

  /** The header check of the list and sets commands: a lone username, then
      a lone password, then Basic together with another scheme. Passing it
      means Basic credentials are complete or absent, and absent whenever
      another scheme is given. */
  function HeaderCheck(h: HeaderOptions): (r: Option<string>)
    ensures r == Some(PasswordMissing) <==> h.username != "" && h.password == ""
    ensures r == Some(UsernameMissing) <==> h.username == "" && h.password != ""
    ensures r == Some(EitherError) <==> h.username != "" && h.password != "" && (h.xApiKey != "" || h.bearerToken != "")
    ensures r.None? <==> (h.username != "" <==> h.password != "") && !(HasBasic(h) && (h.xApiKey != "" || h.bearerToken != ""))
  {
    if h.username != "" && h.password == "" then Some(PasswordMissing)
    else if h.username == "" && h.password != "" then Some(UsernameMissing)
    else if HasBasic(h) && (h.xApiKey != "" || h.bearerToken != "") then Some(EitherError)
    else None
  }

  /** The header check of the convert command as written: Basic together
      with an api key first, then a lone username, then a lone password.
      Basic together with a bearer token passes. */
  function ConvertHeaderCheck(h: HeaderOptions): (r: Option<string>)
    ensures r == Some(EitherError) <==> HasBasic(h) && h.xApiKey != ""
    ensures r == Some(PasswordMissing) <==> h.xApiKey == "" && h.username != "" && h.password == ""
    ensures r == Some(UsernameMissing) <==> h.xApiKey == "" && h.username == "" && h.password != ""
    ensures r.None? <==> (h.username != "" <==> h.password != "") && !(HasBasic(h) && h.xApiKey != "")
  {
    if HasBasic(h) && h.xApiKey != "" then Some(EitherError)
    else if h.username != "" && h.password == "" then Some(PasswordMissing)
    else if h.username == "" && h.password != "" then Some(UsernameMissing)
    else None
  }

  /** The headers sent with the fetch. The three sources are assigned in
      turn, so a later one replaces an earlier one: bearer over api key over
      Basic. */
  function RequestHeaders(h: HeaderOptions): (r: Http.Headers)
    ensures h.bearerToken != "" ==> r == map[Http.AuthorizationHeader := Http.BearerPrefix + h.bearerToken]
    ensures h.bearerToken == "" && h.xApiKey != "" ==> r == map[Http.ApiKeyHeader := h.xApiKey]
    ensures h.bearerToken == "" && h.xApiKey == "" && h.username != "" && h.password != "" ==>
              r == Http.GetAuthHeader(h.username, h.password, "", "", BasicType)
    ensures h.bearerToken == "" && h.xApiKey == "" && (h.username == "" || h.password == "") ==> r == map[]
  {
    var basic := if h.username != "" && h.password != "" then Http.GetAuthHeader(h.username, h.password, "", "", BasicType) else map[];
    var keyed := if h.xApiKey != "" then Http.GetAuthHeader("", "", h.xApiKey, "", ApiKeyType) else basic;
    if h.bearerToken != "" then Http.GetAuthHeader("", "", "", h.bearerToken, BearerType) else keyed
  }

  /** After the list and sets check, Basic credentials that were given are
      the ones sent, and a request with Basic credentials carries no other
      scheme. */
  lemma CheckedBasicSent(h: HeaderOptions)
    requires HeaderCheck(h).None? && HasBasic(h)
    ensures RequestHeaders(h) == Http.GetAuthHeader(h.username, h.password, "", "", BasicType)
    ensures RequestHeaders(h).Keys == {Http.AuthorizationHeader}
  {
  }

  /** The convert command's check lets Basic credentials together with a
      bearer token through, where the other commands reject them, and the
      bearer header then replaces them: the credentials given are silently
      not sent. */
  lemma ConvertCheckDropsBasic(h: HeaderOptions)
    requires h.username != "" && h.password != "" && h.xApiKey == "" && h.bearerToken != ""
    ensures ConvertHeaderCheck(h).None? && HeaderCheck(h) == Some(EitherError)
    ensures RequestHeaders(h) == map[Http.AuthorizationHeader := Http.BearerPrefix + h.bearerToken]
    ensures RequestHeaders(h)[Http.AuthorizationHeader][..|Http.BasicPrefix|] != Http.BasicPrefix
  {
    var v := Http.BearerPrefix + h.bearerToken;
    assert v[1] == 'e' && Http.BasicPrefix[1] == 'a';
  }

  // ---------------------------------------------------------------------
  // The convert command's steps on the converted collection (`convert`)
  // ---------------------------------------------------------------------

  /** The options the convert command hands to the conversion. An empty
      template stands for an absent one. */
  datatype ConvertOptions = ConvertOptions(
    collectionName: string,
    orderConfig: Option<seq<OrderEntry>>,
    scripts: Option<seq<Script>>,
    template: string,
    auth: Option<CollectionAuth>)

  const AuthFailurePrefix := "Failed to set auth to collection. Reason: "

  /** The auth step runs for a descriptor with a non-empty type. */
  predicate AuthApplies(auth: Option<CollectionAuth>) {
    auth.Some? && auth.value.authType.Some? && auth.value.authType.value != ""
  }

  /** What the steps keep of an item: its name, method and path. */
  predicate SameEndpoint(a: Item, b: Item) {
    a.name == b.name && a.request.httpMethod == b.request.httpMethod && a.request.path == b.request.path
  }

  predicate PointwiseSame(a: seq<Item>, b: seq<Item>) {
    |a| == |b| && forall i :: 0 <= i < |a| ==> SameEndpoint(a[i], b[i])
  }

  /** The leaves the steps start from: the ordered ones when an order is
      given, all of them otherwise. */
  function StartLeaves(c: Collection, opts: ConvertOptions): seq<Item> {
    if opts.orderConfig.Some? then OrderItems(Leaves(c.items), opts.orderConfig.value, false)
    else Leaves(c.items)
  }

  /** The steps in their order: reorder keeping unlisted items, attach
      scripts, rename, apply the auth. A failing reorder or script step
      stops with the thrown error; a failing auth definition stops with the
      auth message, before anything is written. On success the name is the
      configured one, the items are the (re)ordered leaves with their names,
      methods and paths, and a forced auth reaches every item. */
  function PostProcess(c: Collection, opts: ConvertOptions): (r: Result<Collection>)
    ensures opts.orderConfig == Some([]) ==> r == Err(ErrorText(NoOrderError))
    ensures opts.orderConfig != Some([]) && opts.scripts == Some([]) ==> r == Err(ErrorText(NoScriptsError))
    ensures opts.orderConfig != Some([]) && opts.scripts != Some([]) && AuthApplies(opts.auth)
            && GetAuthDefinition(opts.auth.value).Err? ==>
              r == Err(AuthFailurePrefix + ErrorText(GetAuthDefinition(opts.auth.value).error))
    ensures r.Ok? <==> opts.orderConfig != Some([]) && opts.scripts != Some([])
                       && !(AuthApplies(opts.auth) && GetAuthDefinition(opts.auth.value).Err?)
    ensures r.Ok? ==> r.value.name == (if opts.collectionName != "" then opts.collectionName else c.name)
    ensures r.Ok? ==> PointwiseSame(StartLeaves(c, opts), Leaves(r.value.items))
    ensures r.Ok? && AuthApplies(opts.auth) && opts.auth.value.forced ==>
              Converter.AllAuthorized(r.value, GetAuthDefinition(opts.auth.value).value)
  {
    var named :- StepsBeforeAuth(c, opts);
    var authorized :- AuthStep(named, opts.auth);
    PointwiseSameTrans(StartLeaves(c, opts), Leaves(named.items), Leaves(authorized.items));
    Ok(authorized)
  }

  /** Reorder, scripts and rename. */
  function StepsBeforeAuth(c: Collection, opts: ConvertOptions): (r: Result<Collection>)
    ensures opts.orderConfig == Some([]) ==> r == Err(ErrorText(NoOrderError))
    ensures opts.orderConfig != Some([]) && opts.scripts == Some([]) ==> r == Err(ErrorText(NoScriptsError))
    ensures r.Ok? <==> opts.orderConfig != Some([]) && opts.scripts != Some([])
    ensures r.Ok? ==> r.value.name == (if opts.collectionName != "" then opts.collectionName else c.name)
    ensures r.Ok? ==> PointwiseSame(StartLeaves(c, opts), Leaves(r.value.items))
  {
    var ordered :- if opts.orderConfig.Some? then OrderStep(c, opts.orderConfig.value) else Ok(c);
    var scripted :- if opts.scripts.Some? then ScriptStep(ordered, opts.scripts.value, opts.template) else Ok(ordered);
    assert PointwiseSame(StartLeaves(c, opts), Leaves(ordered.items)) by {
      assert StartLeaves(c, opts) == Leaves(ordered.items);
    }
    assert PointwiseSame(Leaves(ordered.items), Leaves(scripted.items));
    PointwiseSameTrans(StartLeaves(c, opts), Leaves(ordered.items), Leaves(scripted.items));
    Ok(Rename(scripted, opts.collectionName))
  }

  /** The auth step: skipped unless the descriptor has a type; a failing
      definition stops with the auth message; a forced one reaches every
      item. */
  function AuthStep(named: Collection, auth: Option<CollectionAuth>): (r: Result<Collection>)
    ensures !AuthApplies(auth) ==> r == Ok(named)
    ensures AuthApplies(auth) && GetAuthDefinition(auth.value).Err? ==>
              r == Err(AuthFailurePrefix + ErrorText(GetAuthDefinition(auth.value).error))
    ensures r.Ok? <==> !(AuthApplies(auth) && GetAuthDefinition(auth.value).Err?)
    ensures r.Ok? ==> r.value.name == named.name && PointwiseSame(Leaves(named.items), Leaves(r.value.items))
    ensures r.Ok? && AuthApplies(auth) && auth.value.forced ==>
              Converter.AllAuthorized(r.value, GetAuthDefinition(auth.value).value)
  {
    if AuthApplies(auth) then
      match GetAuthDefinition(auth.value)
      case Err(e) => Err(AuthFailurePrefix + ErrorText(e))
      case Ok(def) =>
        AuthStepKeeps(named, def, auth.value.forced);
        if auth.value.forced then
          SetAuthorizationForced(named, def);
          Ok(SetAuthorization(named, def, true))
        else Ok(SetAuthorization(named, def, false))
    else
      assert PointwiseSame(Leaves(named.items), Leaves(named.items));
      Ok(named)
  }

  /** The reorder, keeping unlisted items at the end. */
  function OrderStep(c: Collection, order: seq<OrderEntry>): (r: Result<Collection>)
    ensures r.Err? <==> order == []
    ensures r.Err? ==> r.error == ErrorText(NoOrderError)
    ensures r.Ok? ==> r.value.name == c.name && Leaves(r.value.items) == OrderItems(Leaves(c.items), order, false)
  {
    match Order(c, order, false)
    case Err(e) => Err(ErrorText(e))
    case Ok(o) => Ok(o)
  }

  /** The script step; only the names, methods and paths of the items
      matter to the later steps. */
  function ScriptStep(c: Collection, scripts: seq<Script>, template: string): (r: Result<Collection>)
    ensures r.Err? <==> scripts == []
    ensures r.Err? ==> r.error == ErrorText(NoScriptsError)
    ensures r.Ok? ==> r.value.name == c.name && PointwiseSame(Leaves(c.items), Leaves(r.value.items))
  {
    if scripts == [] then Err(ErrorText(NoScriptsError))
    else
      AddScriptsKeeps(c, scripts, template);
      var added := AddScripts(c, scripts, template).value.0;
      assert PointwiseSame(Leaves(c.items), Leaves(added.items)) by {
        var before, after := Leaves(c.items), Leaves(added.items);
        forall i | 0 <= i < |before|
          ensures SameEndpoint(before[i], after[i])
        {
          assert AttachKeeps(before[i], after[i]);
          assert after[i].request.(body := None).httpMethod == after[i].request.httpMethod;
          assert before[i].request.(body := None).path == before[i].request.path;
        }
      }
      Ok(added)
  }

  lemma PointwiseSameTrans(a: seq<Item>, b: seq<Item>, c: seq<Item>)
    requires PointwiseSame(a, b) && PointwiseSame(b, c)
    ensures PointwiseSame(a, c)
  {
    assert forall i :: 0 <= i < |a| ==> SameEndpoint(a[i], b[i]) && SameEndpoint(b[i], c[i]);
  }

  lemma AuthStepKeeps(c: Collection, def: Collections.Auth, forced: bool)
    ensures PointwiseSame(Leaves(c.items), Leaves(SetAuthorization(c, def, forced).items))
  {
    SetAuthorizationLeaves(c, def, forced);
    var before, after := Leaves(c.items), Leaves(SetAuthorization(c, def, forced).items);
    forall i | 0 <= i < |before|
      ensures SameEndpoint(before[i], after[i])
    {
      assert after[i].request.(auth := None).httpMethod == after[i].request.httpMethod;
      assert before[i].request.(auth := None).path == before[i].request.path;
    }
  }

  /** `convert`: a rejected conversion prints what it was rejected with;
      otherwise the
      steps run and, unless one fails, the collection is written to the
      output path and nothing else changes. */
  function ConvertAndWrite(converted: Result<Collection>, opts: ConvertOptions, fs: FileSystem, outputPath: string,
                           serialize: Collection -> string): (r: Result<FileSystem>)
    ensures converted.Err? ==> r == Err(converted.error)
    ensures converted.Ok? && PostProcess(converted.value, opts).Err? ==> r == Err(PostProcess(converted.value, opts).error)
    ensures r.Ok? ==> converted.Ok? && PostProcess(converted.value, opts).Ok?
    ensures r.Ok? ==> GetFile(r.value, outputPath) == serialize(PostProcess(converted.value, opts).value)
    ensures r.Ok? ==> forall p :: p != outputPath ==> GetFile(r.value, p) == GetFile(fs, p)
  {
    match converted
    case Err(e) => Err(e)
    case Ok(c) =>
      var final :- PostProcess(c, opts);
      WriteFileRead(fs, outputPath, serialize(final), outputPath);
      Ok(WriteFile(fs, outputPath, serialize(final)))
  }

  // ---------------------------------------------------------------------
  // Checks before converting (`Execute*`)
  // ---------------------------------------------------------------------

  /** The command-line options of the executor; an empty string is an
      absent option. */
  datatype ExecutorOptions = ExecutorOptions(
    inputFileLocation: string,
    outputPath: string,
    scriptsCatalogLocation: string,
    orderConfigFileLocation: string,
    setsConfigFileLocation: string,
    collectionName: string,
    headers: HeaderOptions,
    collectionAuthType: string,
    collectionBasicAuthUsername: string,
    collectionBasicAuthPassword: string,
    collectionApiKeyAuthKey: string,
    collectionApiKeyAuthValue: string,
    collectionApiKeyAuthLocation: string,
    collectionBearerAuthToken: string,
    collectionForcedAuth: bool,
    templateLocation: string,
    outputFileType: string,
    displayNormalized: bool)

  /** Where the OpenAPI document comes from: a local file's content, or a
      URL fetched with the given headers. */
  datatype Document = Local(content: string) | Remote(url: string, headers: Http.Headers)

  /** A command's decision before converting. */
  datatype Plan<T> = Reject(message: string) | Run(options: T, document: Document)

  const NotFoundSuffix := " not found or you do not have access to the file"
  const CatalogNotFoundSuffix := " not found or there are no [test] and [pre-request] catalogs, or you do not have access to it"
  const TemplateWithoutScripts := "Pre request script template is only usable along with scripts"
  const DefaultApiKeyLocation := "header"

  function NotFound(path: string): string {
    path + NotFoundSuffix
  }

  function OrderParseFailure(path: string, reason: string): string {
    "Failed to parse order config file " + path + " content. Reason: " + reason
  }

  /** The shared tail of the commands: a local input must exist and is
      read; a URL input passes the command's header check and is fetched
      with the request headers. */
  function Source<T>(o: ExecutorOptions, options: T, check: Option<string>, fs: FileSystem, isUrl: bool): (r: Plan<T>)
    ensures !isUrl ==> r == (if Exists(fs, o.inputFileLocation) then Run(options, Local(GetFile(fs, o.inputFileLocation)))
                             else Reject(NotFound(o.inputFileLocation)))
    ensures isUrl ==> r == (if check.Some? then Reject(check.value)
                            else Run(options, Remote(o.inputFileLocation, RequestHeaders(o.headers))))
  {
    if !isUrl then
      if !Exists(fs, o.inputFileLocation) then Reject(NotFound(o.inputFileLocation))
      else Run(options, Local(GetFile(fs, o.inputFileLocation)))
    else if check.Some? then Reject(check.value)
    else Run(options, Remote(o.inputFileLocation, RequestHeaders(o.headers)))
  }

  /** The collection auth descriptor the convert command builds from its
      options; the api key location defaults to `header`. */
  function CollectionAuthOf(o: ExecutorOptions): (r: Option<CollectionAuth>)
    ensures r.Some? <==> o.collectionAuthType != ""
    ensures r.Some? ==> AuthApplies(r) && r.value.forced == o.collectionForcedAuth
  {
    if o.collectionAuthType == "" then None
    else
      Some(CollectionAuth(
        Some(o.collectionAuthType),
        Some(BasicAuth(o.collectionBasicAuthUsername, o.collectionBasicAuthPassword)),
        Some(ApiKeyAuth(o.collectionApiKeyAuthKey, o.collectionApiKeyAuthValue,
                        if o.collectionApiKeyAuthLocation != "" then o.collectionApiKeyAuthLocation else DefaultApiKeyLocation)),
        Some(BearerAuth(o.collectionBearerAuthToken)),
        o.collectionForcedAuth))
  }

  /** The order list, when an order file is configured. The reader gives
      `None` for a file whose JSON is falsy (`null`, `false`, `0`, `""`):
      such a file loads, and the convert step then skips the reorder. */
  function LoadOrder(o: ExecutorOptions, fs: FileSystem, parseOrder: string -> Result<Option<seq<OrderEntry>>>): (r: Result<Option<seq<OrderEntry>>>)
    ensures o.orderConfigFileLocation == "" ==> r == Ok(None)
    ensures o.orderConfigFileLocation != "" && !Exists(fs, o.orderConfigFileLocation) ==>
              r == Err(NotFound(o.orderConfigFileLocation))
    ensures o.orderConfigFileLocation != "" && Exists(fs, o.orderConfigFileLocation) ==>
              match parseOrder(GetFile(fs, o.orderConfigFileLocation))
              case Ok(order) => r == Ok(order)
              case Err(e) => r == Err(OrderParseFailure(o.orderConfigFileLocation, e))
  {
    var loc := o.orderConfigFileLocation;
    if loc == "" then Ok(None)
    else if !Exists(fs, loc) then Err(NotFound(loc))
    else
      match parseOrder(GetFile(fs, loc))
      case Ok(order) => Ok(order)
      case Err(e) => Err(OrderParseFailure(loc, e))
  }

  /** The scripts and the template, when a scripts catalog is configured.
      The catalog passes the existence check when it or one of its two
      subdirectories exists; reading it then fails on a missing
      subdirectory. */
  function LoadScripts(o: ExecutorOptions, fs: FileSystem): (r: Result<(Option<seq<Script>>, string)>)
    ensures o.scriptsCatalogLocation == "" && o.templateLocation != "" ==> r == Err(TemplateWithoutScripts)
    ensures o.scriptsCatalogLocation == "" && o.templateLocation == "" ==> r == Ok((None, ""))
    ensures o.scriptsCatalogLocation != "" ==>
              var s := o.scriptsCatalogLocation;
              if !Exists(fs, s) && !Exists(fs, PathJoin(s, TestDir)) && !Exists(fs, PathJoin(s, PreRequestDir)) then
                r == Err(s + CatalogNotFoundSuffix)
              else if GetScriptsContent(fs, s).Err? then r == Err(GetScriptsContent(fs, s).error)
              else if o.templateLocation != "" && !Exists(fs, o.templateLocation) then r == Err(NotFound(o.templateLocation))
              else r == Ok((Some(GetScriptsContent(fs, s).value),
                            if o.templateLocation != "" then GetFile(fs, o.templateLocation) else ""))
  {
    var s := o.scriptsCatalogLocation;
    if s == "" then
      if o.templateLocation != "" then Err(TemplateWithoutScripts) else Ok((None, ""))
    else if !Exists(fs, s) && !Exists(fs, PathJoin(s, TestDir)) && !Exists(fs, PathJoin(s, PreRequestDir)) then
      Err(s + CatalogNotFoundSuffix)
    else
      var scripts :- GetScriptsContent(fs, s);
      if o.templateLocation == "" then Ok((Some(scripts), ""))
      else if !Exists(fs, o.templateLocation) then Err(NotFound(o.templateLocation))
      else Ok((Some(scripts), GetFile(fs, o.templateLocation)))
  }

  /** `ExecuteConvertWrite` up to the conversion: the order file, then the
      template-without-scripts check, then the scripts catalog and the
      template, then the input. A URL input goes through the convert
      command's own header check, which differs from that of the list and
      sets commands. */
  function PrepareConvert(o: ExecutorOptions, fs: FileSystem, isUrl: bool,
                          parseOrder: string -> Result<Option<seq<OrderEntry>>>): (r: Plan<ConvertOptions>)
    ensures LoadOrder(o, fs, parseOrder).Err? ==> r == Reject(LoadOrder(o, fs, parseOrder).error)
    ensures LoadOrder(o, fs, parseOrder).Ok? && LoadScripts(o, fs).Err? ==> r == Reject(LoadScripts(o, fs).error)
    ensures r.Run? ==>
              && LoadOrder(o, fs, parseOrder).Ok? && LoadScripts(o, fs).Ok?
              && r.options == ConvertOptions(o.collectionName, LoadOrder(o, fs, parseOrder).value,
                                             LoadScripts(o, fs).value.0, LoadScripts(o, fs).value.1, CollectionAuthOf(o))
    ensures LoadOrder(o, fs, parseOrder).Ok? && LoadScripts(o, fs).Ok? ==>
              r == Source(o, ConvertOptions(o.collectionName, LoadOrder(o, fs, parseOrder).value,
                                            LoadScripts(o, fs).value.0, LoadScripts(o, fs).value.1, CollectionAuthOf(o)),
                          ConvertHeaderCheck(o.headers), fs, isUrl)
  {
    match LoadOrder(o, fs, parseOrder)
    case Err(e) => Reject(e)
    case Ok(order) =>
      match LoadScripts(o, fs)
      case Err(e) => Reject(e)
      case Ok(loaded) =>
        Source(o, ConvertOptions(o.collectionName, order, loaded.0, loaded.1, CollectionAuthOf(o)),
               ConvertHeaderCheck(o.headers), fs, isUrl)
  }

  /** A local input skips every header check: the header options do not
      change the decision. */
  lemma LocalInputIgnoresHeaders(o: ExecutorOptions, h: HeaderOptions, fs: FileSystem,
                                 parseOrder: string -> Result<Option<seq<OrderEntry>>>,
                                 parseSets: string -> Result<Option<Converter.SetsField>>)
    ensures PrepareConvert(o.(headers := h), fs, false, parseOrder) == PrepareConvert(o, fs, false, parseOrder)
    ensures PrepareSets(o.(headers := h), fs, false, parseSets) == PrepareSets(o, fs, false, parseSets)
    ensures PrepareList(o.(headers := h), fs, false) == PrepareList(o, fs, false)
  {
    var o2 := o.(headers := h);
    assert LoadOrder(o2, fs, parseOrder) == LoadOrder(o, fs, parseOrder);
    assert LoadScripts(o2, fs) == LoadScripts(o, fs);
    assert CollectionAuthOf(o2) == CollectionAuthOf(o);
  }

  /** Basic credentials together with a bearer token pass the convert
      command's check and the document is fetched with the bearer header
      alone, while the list command rejects the same options. */
  lemma ConvertFetchesWithBearer(o: ExecutorOptions, fs: FileSystem,
                                 parseOrder: string -> Result<Option<seq<OrderEntry>>>)
    requires o.headers.username != "" && o.headers.password != "" && o.headers.xApiKey == "" && o.headers.bearerToken != ""
    ensures LoadOrder(o, fs, parseOrder).Ok? && LoadScripts(o, fs).Ok? ==>
              && PrepareConvert(o, fs, true, parseOrder).Run?
              && PrepareConvert(o, fs, true, parseOrder).document
                 == Remote(o.inputFileLocation, map[Http.AuthorizationHeader := Http.BearerPrefix + o.headers.bearerToken])
    ensures PrepareList(o, fs, true) == Reject(EitherError)
  {
    ConvertCheckDropsBasic(o.headers);
  }

  /** A template without a scripts catalog is rejected once the order file,
      if any, has loaded, whatever the input. */
  lemma TemplateNeedsScripts(o: ExecutorOptions, fs: FileSystem, isUrl: bool,
                             parseOrder: string -> Result<Option<seq<OrderEntry>>>)
    requires o.scriptsCatalogLocation == "" && o.templateLocation != ""
    requires LoadOrder(o, fs, parseOrder).Ok?
    ensures PrepareConvert(o, fs, isUrl, parseOrder) == Reject(TemplateWithoutScripts)
  {
  }

  function SetsNotFound(path: string): string {
    "file " + path + NotFoundSuffix
  }

  /** `ExecuteCreateWriteSets` up to the conversion: the sets file must
      exist and parse, then the input is checked. A parse failure is
      thrown, and reported here with the parser's message. */
  function PrepareSets(o: ExecutorOptions, fs: FileSystem, isUrl: bool,
                       parseSets: string -> Result<Option<Converter.SetsField>>): (r: Plan<Option<Converter.SetsField>>)
    ensures !Exists(fs, o.setsConfigFileLocation) ==> r == Reject(SetsNotFound(o.setsConfigFileLocation))
    ensures Exists(fs, o.setsConfigFileLocation) && parseSets(GetFile(fs, o.setsConfigFileLocation)).Err? ==>
              r == Reject(parseSets(GetFile(fs, o.setsConfigFileLocation)).error)
    ensures Exists(fs, o.setsConfigFileLocation) && parseSets(GetFile(fs, o.setsConfigFileLocation)).Ok? ==>
              r == Source(o, parseSets(GetFile(fs, o.setsConfigFileLocation)).value, HeaderCheck(o.headers), fs, isUrl)
  {
    if !Exists(fs, o.setsConfigFileLocation) then Reject(SetsNotFound(o.setsConfigFileLocation))
    else
      match parseSets(GetFile(fs, o.setsConfigFileLocation))
      case Err(e) => Reject(e)
      case Ok(config) => Source(o, config, HeaderCheck(o.headers), fs, isUrl)
  }

  /** What the list command needs besides the document. */
  datatype ListOptions = ListOptions(normalized: bool, fileType: string, outputPath: string)

  /** `ExecuteListEndpoints` up to the conversion. */
  function PrepareList(o: ExecutorOptions, fs: FileSystem, isUrl: bool): (r: Plan<ListOptions>)
    ensures r == Source(o, ListOptions(o.displayNormalized, o.outputFileType, o.outputPath), HeaderCheck(o.headers), fs, isUrl)
    ensures r.Run? && isUrl ==> HeaderCheck(o.headers).None?
  {
    Source(o, ListOptions(o.displayNormalized, o.outputFileType, o.outputPath), HeaderCheck(o.headers), fs, isUrl)
  }

  // ---------------------------------------------------------------------
  // Writing the results (`createSets`, `listEndpoints`)
  // ---------------------------------------------------------------------

  const JsonExtension := ".json"

  /** `<outputCatalog>/<set name>.json`. */
  function SetFilePath(dir: string, name: string): (r: string)
    ensures |r| == |dir| + 1 + |name| + |JsonExtension|
  {
    PathJoin(dir, name + JsonExtension)
  }

  /** Different set names give different files. */
  lemma SetFilePathInjective(dir: string, a: string, b: string)
    requires SetFilePath(dir, a) == SetFilePath(dir, b)
    ensures a == b
  {
    var pa, pb := SetFilePath(dir, a), SetFilePath(dir, b);
    assert pa[|dir| + 1..] == a + JsonExtension;
    assert pb[|dir| + 1..] == b + JsonExtension;
    assert a == (a + JsonExtension)[..|a|];
    assert b == (b + JsonExtension)[..|b|];
  }

  /** A set file lands in the output catalog when the set name has no
      separator. */
  lemma SetFileFolder(dir: string, name: string)
    requires Sep !in name
    ensures MkdirTarget(SetFilePath(dir, name)) == Some(dir)
  {
    assert Sep !in name + JsonExtension by {
      assert forall i :: 0 <= i < |name| ==> (name + JsonExtension)[i] == name[i];
    }
    MkdirTargetOf(dir, name + JsonExtension);
  }

  /** Writes every set, in order. */
  function WriteSets(fs: FileSystem, dir: string, sets: seq<Converter.CollectionSet>,
                     serialize: Collection -> string): (r: FileSystem)
    ensures r.dirs == fs.dirs
    decreases |sets|
  {
    if sets == [] then fs
    else WriteSets(WriteFile(fs, SetFilePath(dir, sets[0].name), serialize(sets[0].collection)), dir, sets[1..], serialize)
  }

  /** No later set has the same name. */
  predicate LastOfName(sets: seq<Converter.CollectionSet>, i: nat) {
    forall j :: i < j < |sets| ==> sets[j].name != sets[i].name
  }

  /** Each set's file holds its collection, unless a later set has the same
      name and overwrites it; files of no set are untouched. */
  lemma {:induction false} WriteSetsFiles(fs: FileSystem, dir: string, sets: seq<Converter.CollectionSet>,
                                          serialize: Collection -> string)
    ensures forall i :: 0 <= i < |sets| && LastOfName(sets, i) ==>
              GetFile(WriteSets(fs, dir, sets, serialize), SetFilePath(dir, sets[i].name)) == serialize(sets[i].collection)
    ensures forall p :: (forall i :: 0 <= i < |sets| ==> p != SetFilePath(dir, sets[i].name)) ==>
              GetFile(WriteSets(fs, dir, sets, serialize), p) == GetFile(fs, p)
    decreases |sets|
  {
    if sets != [] {
      var first := SetFilePath(dir, sets[0].name);
      var next := WriteFile(fs, first, serialize(sets[0].collection));
      var rest := sets[1..];
      WriteSetsFiles(next, dir, rest, serialize);
      assert WriteSets(fs, dir, sets, serialize) == WriteSets(next, dir, rest, serialize);
      forall i | 0 <= i < |sets| && LastOfName(sets, i)
        ensures GetFile(WriteSets(fs, dir, sets, serialize), SetFilePath(dir, sets[i].name)) == serialize(sets[i].collection)
      {
        if i == 0 {
          forall j | 0 <= j < |rest|
            ensures first != SetFilePath(dir, rest[j].name)
          {
            assert rest[j] == sets[j + 1];
            if first == SetFilePath(dir, rest[j].name) {
              SetFilePathInjective(dir, sets[0].name, rest[j].name);
            }
          }
          WriteFileRead(fs, first, serialize(sets[0].collection), first);
        } else {
          assert rest[i - 1] == sets[i];
          assert LastOfName(rest, i - 1) by {
            forall j | i - 1 < j < |rest|
              ensures rest[j].name != rest[i - 1].name
            {
              assert rest[j] == sets[j + 1];
            }
          }
        }
      }
      forall p | forall i :: 0 <= i < |sets| ==> p != SetFilePath(dir, sets[i].name)
        ensures GetFile(WriteSets(fs, dir, sets, serialize), p) == GetFile(fs, p)
      {
        assert p != first;
        assert forall i :: 0 <= i < |rest| ==> p != SetFilePath(dir, rest[i].name) by {
          forall i | 0 <= i < |rest|
            ensures p != SetFilePath(dir, rest[i].name)
          {
            assert rest[i] == sets[i + 1];
          }
        }
        WriteFileRead(fs, first, serialize(sets[0].collection), p);
      }
    }
  }

  /** `createSets`: a rejected set creation prints its error, otherwise
      every set is written. */
  function CreateAndWriteSets(created: Result<seq<Converter.CollectionSet>>, fs: FileSystem, dir: string,
                              serialize: Collection -> string): (r: Result<FileSystem>)
    ensures created.Err? ==> r == Err("Failed to create sets. Reason " + created.error)
    ensures created.Ok? ==> r.Ok? && r.value.dirs == fs.dirs
    ensures created.Ok? ==> forall i :: 0 <= i < |created.value| && LastOfName(created.value, i) ==>
              GetFile(r.value, SetFilePath(dir, created.value[i].name)) == serialize(created.value[i].collection)
  {
    match created
    case Err(e) => Err("Failed to create sets. Reason " + e)
    case Ok(sets) =>
      WriteSetsFiles(fs, dir, sets, serialize);
      Ok(WriteSets(fs, dir, sets, serialize))
  }

  const CsvType := "csv"
  const MarkdownType := "md"

  /** `listEndpoints`: a rejected conversion prints its error; a CSV or
      Markdown file type writes that table to the output path; any other
      type prints to the console and writes nothing. */
  function ListAndWrite(converted: Result<Collection>, opts: ListOptions, fs: FileSystem): (r: Result<FileSystem>)
    ensures converted.Err? ==> r == Err("Failed to convert open API file to postman collection. Reason " + converted.error)
    ensures converted.Ok? && opts.fileType == CsvType ==>
              r.Ok? && GetFile(r.value, opts.outputPath) == GetCsv(converted.value, opts.normalized)
    ensures converted.Ok? && opts.fileType == MarkdownType ==>
              r.Ok? && GetFile(r.value, opts.outputPath) == GetMarkdown(converted.value, opts.normalized)
    ensures converted.Ok? && opts.fileType !in {CsvType, MarkdownType} ==> r == Ok(fs)
    ensures r.Ok? ==> forall p :: p != opts.outputPath ==> GetFile(r.value, p) == GetFile(fs, p)
  {
    match converted
    case Err(e) => Err("Failed to convert open API file to postman collection. Reason " + e)
    case Ok(c) =>
      if opts.fileType in {CsvType, MarkdownType} then
        var text := if opts.fileType == CsvType then GetCsv(c, opts.normalized) else GetMarkdown(c, opts.normalized);
        Ok(WriteOnly(fs, opts.outputPath, text))
      else Ok(fs)
  }

  /** Writing one file: it reads back as written, every other file as before. */
  function WriteOnly(fs: FileSystem, path: string, text: string): (r: FileSystem)
    ensures GetFile(r, path) == text
    ensures forall p :: p != path ==> GetFile(r, p) == GetFile(fs, p)
  {
    WriteFileRead(fs, path, text, path);
    forall p | p != path
      ensures GetFile(WriteFile(fs, path, text), p) == GetFile(fs, p)
    {
      WriteFileRead(fs, path, text, p);
    }
    WriteFile(fs, path, text)
  }
}
