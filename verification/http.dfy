/** `GetAuthHeader` of `src/utils/http.util.ts`: the request headers for
    fetching a remote OpenAPI document. The Basic scheme follows section 2
    of RFC 7617 (the user-id, a colon and the password, UTF-8 encoded and
    then base64 encoded), the Bearer scheme section 2.1 of RFC 6750.

    Headers are a map from header name to value; the header type is the
    string value of the `AuthHeaderType` enumeration, so that a value
    outside it can be passed as the source's tests do. */
module Http {
  import opened Base64
  import Auth
  import Strings

  type Headers = map<string, string>

  const AuthorizationHeader := "Authorization"
  const ApiKeyHeader := "X-API-KEY"
  const BasicPrefix := "Basic "
  const BearerPrefix := "Bearer "

  /** The Basic credentials text: user-id, colon, password. */
  function Credentials(username: string, password: string): string {
    username + ":" + password
  }

  /** `GetAuthHeader`: exactly one header for a known type, none otherwise.
      A Basic header's value decodes back to the UTF-8 bytes of the
      credentials text. */
  function GetAuthHeader(username: string, password: string, xApiKey: string, token: string,
                         authType: string): (h: Headers)
    ensures authType == Auth.BasicType ==>
              && h.Keys == {AuthorizationHeader}
              && |h[AuthorizationHeader]| >= |BasicPrefix|
              && h[AuthorizationHeader][..|BasicPrefix|] == BasicPrefix
              && WellFormed(h[AuthorizationHeader][|BasicPrefix|..])
              && Decode(h[AuthorizationHeader][|BasicPrefix|..]) == Utf8(Credentials(username, password))
    ensures authType == Auth.ApiKeyType ==> h == map[ApiKeyHeader := xApiKey]
    ensures authType == Auth.BearerType ==> h == map[AuthorizationHeader := BearerPrefix + token]
    ensures authType !in {Auth.BasicType, Auth.ApiKeyType, Auth.BearerType} ==> h == map[]
  {
    if authType == Auth.BasicType then
      var encoded := Encode(Utf8(Credentials(username, password)));
      DecodeEncode(Utf8(Credentials(username, password)));
      assert (BasicPrefix + encoded)[|BasicPrefix|..] == encoded;
      map[AuthorizationHeader := BasicPrefix + encoded]
    else if authType == Auth.ApiKeyType then map[ApiKeyHeader := xApiKey]
    else if authType == Auth.BearerType then map[AuthorizationHeader := BearerPrefix + token]
    else map[]
  }

  /** The encoding is injective: equal encodings come from equal bytes. */
  lemma EncodeInjective(a: seq<byte>, b: seq<byte>)
    requires Encode(a) == Encode(b)
    ensures a == b
  {
    DecodeEncode(a);
    DecodeEncode(b);
  }

  /** ASCII text is determined by its UTF-8 bytes. */
  lemma Utf8AsciiInjective(s: string, t: string)
    requires IsAscii(s) && IsAscii(t) && Utf8(s) == Utf8(t)
    ensures s == t
  {
    Utf8Ascii(s);
    Utf8Ascii(t);
    assert forall i :: 0 <= i < |s| ==> s[i] as int == Utf8(s)[i];
  }

  /** The credentials text splits back at its first colon when the user-id
      has none, as RFC 7617 requires of user-ids. */
  lemma CredentialsSplit(username: string, password: string)
    requires ':' !in username
    ensures var c := Credentials(username, password);
            ':' in c && c[..Strings.IndexOf(c, ':')] == username && c[Strings.IndexOf(c, ':') + 1..] == password
  {
    Strings.IndexOfAfter(username, ':', password);
  }

  /** Two Basic headers are equal only for the same credentials, for
      ASCII credentials whose user-ids contain no colon. */
  lemma BasicHeaderInjective(u1: string, p1: string, u2: string, p2: string)
    requires IsAscii(u1 + ":" + p1) && IsAscii(u2 + ":" + p2)
    requires ':' !in u1 && ':' !in u2
    ensures GetAuthHeader(u1, p1, "", "", Auth.BasicType) == GetAuthHeader(u2, p2, "", "", Auth.BasicType) ==>
              u1 == u2 && p1 == p2
  {
    if GetAuthHeader(u1, p1, "", "", Auth.BasicType) != GetAuthHeader(u2, p2, "", "", Auth.BasicType) {
      return;
    }
    var v := GetAuthHeader(u1, p1, "", "", Auth.BasicType)[AuthorizationHeader][|BasicPrefix|..];
    assert Utf8(Credentials(u1, p1)) == Decode(v) == Utf8(Credentials(u2, p2));
    Utf8AsciiInjective(Credentials(u1, p1), Credentials(u2, p2));
    CredentialsSplit(u1, p1);
    CredentialsSplit(u2, p2);
  }
}
