/** The names `api__{server}__{operation}`: built for published endpoints, parsed back on a call,
    and used for generated wrapper functions. */
module ToolNames {
  import opened Json
  import opened Text
  import opened Slugs

  const PREFIX := "api__"

  function BuildName(server: string, op: string): (r: string) { PREFIX + server + "__" + op }

  predicate TwinAt(s: string, i: int) { 0 <= i < |s| - 1 && s[i] == '_' && s[i + 1] == '_' }

  /** Where `__` first occurs at or after `i`; the length when it does not. */
  function FirstTwin(s: string, i: nat): (r: nat)
    requires i <= |s|
    ensures i <= r <= |s| && (r < |s| ==> TwinAt(s, r))
    ensures forall j :: i <= j < r ==> !TwinAt(s, j)
    decreases |s| - i
  {
    if i == |s| || TwinAt(s, i) then i else FirstTwin(s, i + 1)
  }

  /** `parse_api_tool_name`. */
  function ParseName(name: string): (r: Option<(string, string)>) {
    if !(PREFIX <= name) then None
    else
      var rest := name[|PREFIX|..];
      var cut := FirstTwin(rest, 0);
      if cut == |rest| then None
      else
        var server, op := rest[..cut], rest[cut + 2..];
        if server == "" || op == "" then None else Some((server, op))
  }

  lemma BuiltRest(server: string, op: string)
    ensures PREFIX <= BuildName(server, op)
    ensures BuildName(server, op)[|PREFIX|..] == server + "__" + op
  {
    assert BuildName(server, op) == PREFIX + (server + "__" + op);
  }

  /** Parsing gives back what was built exactly when neither part is empty and the server name
      neither contains `__` nor ends with `_`. */
  lemma ParseInvertsBuild(server: string, op: string)
    ensures ParseName(BuildName(server, op)) == Some((server, op))
       <==> server != "" && op != "" && !Contains(server, "__") && server[|server| - 1] != '_'
  {
    var rest := server + "__" + op;
    BuiltRest(server, op);
    TwinsAreContained(server);
    assert forall j :: 0 <= j < |server| ==> rest[j] == server[j];
    assert TwinAt(rest, |server|);
    var cut := FirstTwin(rest, 0);
    assert cut <= |server|;
    if cut == |server| {
      assert rest[..cut] == server && rest[cut + 2..] == op;
      assert forall j :: 0 <= j < |server| ==> !TwinAt(rest, j);
      if server != "" { assert !TwinAt(rest, |server| - 1); }
      forall j | 0 <= j < |server| - 1 ensures !(server[j] == '_' && server[j + 1] == '_') {
        assert !TwinAt(rest, j);
      }
    } else {
      assert TwinAt(rest, cut) && |rest[..cut]| < |server|;
      if cut + 1 < |server| { assert server[cut] == '_' && server[cut + 1] == '_'; }
    }
  }

  /** A server name that parsing can find again. */
  ghost predicate Findable(server: string) {
    server != "" && !Contains(server, "__") && server[|server| - 1] != '_'
  }

  /** What parsing gives is what the name says, split at the first `__` after the prefix. */
  lemma ParsedIsBuilt(name: string, server: string, op: string)
    requires ParseName(name) == Some((server, op))
    ensures name == "api__" + server + "__" + op && server != "" && op != "" && !Contains(server, "__")
  {
    var rest := name[|PREFIX|..];
    var cut := FirstTwin(rest, 0);
    assert rest[cut..cut + 2] == "__";
    assert rest == rest[..cut] + rest[cut..cut + 2] + rest[cut + 2..];
    assert name == PREFIX + rest;
    BuiltRest(server, op);
    assert BuildName(server, op) == PREFIX + (server + "__" + op);
    TwinsAreContained(server);
    forall j | 0 <= j < |server| - 1 ensures !(server[j] == '_' && server[j + 1] == '_') { assert !TwinAt(rest, j); }
  }

  /** No name of a findable server and a non-empty operation fails to parse. */
  lemma UnparsedIsNotBuilt(name: string, server: string, op: string)
    requires ParseName(name).None? && Findable(server) && op != ""
    ensures name != "api__" + server + "__" + op
  {
    ParseInvertsBuild(server, op);
    assert BuildName(server, op) == "api__" + server + "__" + op;
  }

  /** Names are unambiguous when the last part is slug-shaped, whatever comes before it. */
  lemma LastPartDecides(a: string, p: string, b: string, q: string)
    requires SlugShaped(p) && SlugShaped(q) && |p| <= |q|
    requires a + "__" + p == b + "__" + q
    ensures a == b && p == q
  {
    var s := a + "__" + p;
    TwinsAreContained(q);
    var n := |s| - |q|;
    assert forall k :: n <= k < |s| ==> s[k] == q[k - n];
    assert s[|a|] == '_' && s[|a| + 1] == '_';
    assert |q| == |p|;
    assert s[..|a|] == a && s[..|b|] == b && s[|a| + 2..] == p && s[|b| + 2..] == q;
  }

  function WrapperName(lower: Lower, server: string, op: string): (r: string) {
    "api__" + Sanitize(lower, server) + "__" + Sanitize(lower, op)
  }

  /** Server names as the API accepts them: lower-case letters, digits and hyphens. */
  predicate PlainServer(s: string) { s != "" && forall c <- s :: Alnum(c) || c == '-' }

  lemma SanitizeInjective(lower: Lower, s: string, t: string)
    requires LowerFixesPlain(lower) && PlainServer(s) && PlainServer(t)
    requires Sanitize(lower, s) == Sanitize(lower, t)
    ensures s == t
  {
    assert lower(s) == s && lower(t) == t;
    forall i | 0 <= i < |s| ensures s[i] == t[i] {
      assert SanitizeChars(s)[i] == SanitizeChars(t)[i];
      assert s[i] in s && t[i] in t;
    }
  }

  /** Distinct pairs of server and imported operation get distinct generated wrappers. */
  lemma WrapperNamesDistinct(lower: Lower, s: string, p: string, t: string, q: string)
    requires LowerFixesPlain(lower) && PlainServer(s) && PlainServer(t) && SlugShaped(p) && SlugShaped(q)
    ensures WrapperName(lower, s, p) == WrapperName(lower, t, q) <==> s == t && p == q
  {
    if WrapperName(lower, s, p) == WrapperName(lower, t, q) {
      SlugShapedFixed(lower, p);
      SlugShapedFixed(lower, q);
      var a, b := "api__" + Sanitize(lower, s), "api__" + Sanitize(lower, t);
      if |p| <= |q| { LastPartDecides(a, p, b, q); } else { LastPartDecides(b, q, a, p); }
      assert a[5..] == Sanitize(lower, s) && b[5..] == Sanitize(lower, t);
      SanitizeInjective(lower, s, t);
    }
  }

  /** Published tool names of accepted servers and imported operations parse back. */
  lemma PublishedNamesParse(server: string, op: string)
    requires PlainServer(server) && SlugShaped(op)
    ensures ParseName(BuildName(server, op)) == Some((server, op))
  {
    TwinsAreContained(server);
    assert forall i :: 0 <= i < |server| ==> server[i] in server;
    ParseInvertsBuild(server, op);
  }
}
