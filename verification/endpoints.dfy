/** Endpoint naming and listing of `src/collection/collection-extension.ts`:
    the normalized name that keys script files, and the endpoint table of
    the list command. */
module Endpoints {
  import opened Wrappers
  import opened Strings
  import opened Collections

  /** The path shown for a request whose URL has no path. */
  const UndefinedPath := "undefined"

  /** `getNormalizedEndpointName`: the method and the path's letters and
      dashes, lower-cased. The method is not filtered. */
  function NormalizedEndpointName(httpMethod: string, path: string): (r: string)
    ensures |r| == |httpMethod| + 1 + |LettersOnlyWithDash(path)|
    ensures r[..|httpMethod|] == Lower(httpMethod) && r[|httpMethod|] == '-'
    ensures r[|httpMethod| + 1..] == LettersOnlyWithDash(Lower(path))
    ensures forall i :: |httpMethod| < i < |r| ==> IsLowerAscii(r[i]) || r[i] == '-'
  {
    var r := Lower(httpMethod + "-" + LettersOnlyWithDash(path));
    LowerConcat(httpMethod + "-", LettersOnlyWithDash(path));
    LowerConcat(httpMethod, "-");
    LettersOnlyWithDashLower(path);
    assert r[|httpMethod| + 1..] == Lower(LettersOnlyWithDash(path));
    r
  }

  /** Names converge whatever the letter case of the method and the path. */
  lemma NormalizedCaseInsensitive(httpMethod: string, path: string)
    ensures NormalizedEndpointName(httpMethod, path) == NormalizedEndpointName(Lower(httpMethod), Lower(path))
  {
    var a := NormalizedEndpointName(httpMethod, path);
    var b := NormalizedEndpointName(Lower(httpMethod), Lower(path));
    LowerIdempotent(httpMethod);
    LowerIdempotent(path);
    assert a[..|httpMethod|] == b[..|httpMethod|];
    assert a[|httpMethod| + 1..] == b[|httpMethod| + 1..];
    assert a == a[..|httpMethod|] + [a[|httpMethod|]] + a[|httpMethod| + 1..];
    assert b == b[..|httpMethod|] + [b[|httpMethod|]] + b[|httpMethod| + 1..];
  }

  /** The name as three parts: the lower-cased method, a dash and the
      lower-cased path filtered to letters and dashes. */
  lemma NormalizedParts(httpMethod: string, path: string)
    ensures NormalizedEndpointName(httpMethod, path) == Lower(httpMethod) + "-" + LettersOnlyWithDash(Lower(path))
  {
    var r := NormalizedEndpointName(httpMethod, path);
    assert r == r[..|httpMethod|] + [r[|httpMethod|]] + r[|httpMethod| + 1..];
  }

  /** The path `ListEndpoints` and `Order` compare: the path segments joined
      by `/` and lower-cased, or `undefined` for a URL without path. */
  function ItemPath(r: Request): (p: string)
    ensures r.path.None? ==> p == UndefinedPath
    ensures r.path.Some? ==> p == Lower(Join(r.path.value, "/"))
  {
    if r.path.None? then UndefinedPath else Lower(Join(r.path.value, "/"))
  }

  /** The compared path is already lower case. */
  lemma ItemPathIsLower(r: Request)
    ensures Lower(ItemPath(r)) == ItemPath(r)
  {
    if r.path.Some? {
      LowerIdempotent(Join(r.path.value, "/"));
    } else {
      assert Lower(UndefinedPath) == UndefinedPath;
    }
  }

  datatype MethodPath = MethodPath(httpMethod: string, path: string)

  datatype EndpointInfo = EndpointInfo(actual: MethodPath, normalized: string)

  /** The listing entry of one item. */
  function EndpointOf(item: Item): (e: EndpointInfo)
    ensures e.actual.httpMethod == Lower(item.request.httpMethod)
    ensures e.actual.path == ItemPath(item.request)
    ensures e.normalized == NormalizedEndpointName(e.actual.httpMethod, e.actual.path)
  {
    var path := ItemPath(item.request);
    NormalizedCaseInsensitive(item.request.httpMethod, path);
    ItemPathIsLower(item.request);
    EndpointInfo(MethodPath(Lower(item.request.httpMethod), path), NormalizedEndpointName(item.request.httpMethod, path))
  }

  /** `ListEndpoints`: one entry per leaf item, in visiting order. The
      normalized name can be recomputed from the listed method and path. */
  function ListEndpoints(c: Collection): (r: seq<EndpointInfo>)
    ensures |r| == |Leaves(c.items)|
    ensures forall i :: 0 <= i < |r| ==> r[i] == EndpointOf(Leaves(c.items)[i])
    ensures forall i :: 0 <= i < |r| ==>
              r[i].normalized == NormalizedEndpointName(r[i].actual.httpMethod, r[i].actual.path)
  {
    var items := Leaves(c.items);
    seq(|items|, i requires 0 <= i < |items| => EndpointOf(items[i]))
  }

  /** Listing depends only on the leaves, so folders do not matter. */
  lemma ListEndpointsFolders(c: Collection, d: Collection)
    requires Leaves(c.items) == Leaves(d.items)
    ensures ListEndpoints(c) == ListEndpoints(d)
  {
  }

  lemma PatchUndefinedText()
    ensures "patch" + "-" + "undefined" == "patch-undefined"
  {
  }

  lemma NormalizedUndefined()
    ensures NormalizedEndpointName("PATCH", "undefined") == "patch-undefined"
  {
    assert Lower("PATCH") == "patch" by { }
    assert LettersOnlyWithDash(Lower("undefined")) == "undefined" by {
      LowerOfLower("undefined");
      FilterIdentity("undefined", IsLetterOrDash);
    }
    NormalizedParts("PATCH", "undefined");
    PatchUndefinedText();
  }

  /** The listing of an item without path is `undefined`, normalized
      `<method>-undefined`, as in the listing tests. */
  lemma EndpointWithoutPath(item: Item)
    requires item.request.path.None? && item.request.httpMethod == "PATCH"
    ensures EndpointOf(item) == EndpointInfo(MethodPath("patch", "undefined"), "patch-undefined")
  {
    assert Lower("PATCH") == "patch" by { }
    NormalizedUndefined();
  }
}
