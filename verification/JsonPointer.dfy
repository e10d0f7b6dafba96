/** `_resolve_ref`: JSON Pointers into an OpenAPI document (sections 3 and 4 of RFC 6901). */
module JsonPointer {
  import opened Json
  import opened Text

  function Unescape(part: string): (r: string) {
    Replace(Replace(part, "~1", "/"), "~0", "~")
  }

  function UnescapeAll(parts: seq<string>): (r: seq<string>)
    ensures |r| == |parts|
  {
    if parts == [] then [] else [Unescape(parts[0])] + UnescapeAll(parts[1..])
  }

  /** What Python's `None` stands for when a lookup fails. */
  function OrNull(o: Option<Json>): (r: Json) { if o.Some? then o.value else Null }

  function ResolveRef(ref: string, root: Json): (r: Json) {
    if "#/" <= ref then OrNull(Walk(root, UnescapeAll(Split(ref[2..], "/")))) else Null
  }

  /** The walk of `_resolve_ref`, one pointer token at a time. */
  method ResolveRefByLoop(ref: string, root: Json) returns (r: Json)
    ensures r == ResolveRef(ref, root)
  {
    if !("#/" <= ref) { return Null; }
    var node, parts := root, Split(ref[2..], "/");
    for i := 0 to |parts|
      invariant Walk(node, UnescapeAll(parts[i..])) == Walk(root, UnescapeAll(parts))
    {
      var part := Replace(Replace(parts[i], "~1", "/"), "~0", "~");
      assert UnescapeAll(parts[i..]) == [part] + UnescapeAll(parts[i + 1..]) by {
        assert parts[i..][1..] == parts[i + 1..];
      }
      assert ([part] + UnescapeAll(parts[i + 1..]))[1..] == UnescapeAll(parts[i + 1..]);
      var next := Lookup(node, part);
      if next.None? { return Null; }
      node := next.value;
    }
    return node;
  }

  /** Section 4 of RFC 6901: `~` is written `~0` and `/` is written `~1`. */
  function Escape(key: string): (r: string) {
    if key == "" then ""
    else (if key[0] == '~' then "~0" else if key[0] == '/' then "~1" else [key[0]]) + Escape(key[1..])
  }

  function EscapeAll(keys: seq<string>): (r: seq<string>)
    ensures |r| == |keys|
  {
    if keys == [] then [] else [Escape(keys[0])] + EscapeAll(keys[1..])
  }

  function PointerTo(keys: seq<string>): (r: string) { "#/" + Join(EscapeAll(keys), "/") }

  /** A key with only its tildes escaped: what is left after the slashes have been restored. */
  function EscapeTildes(key: string): (r: string) {
    if key == "" then ""
    else (if key[0] == '~' then "~0" else [key[0]]) + EscapeTildes(key[1..])
  }

  lemma ReplaceSkips(c: char, t: string, v: string, r: string)
    requires |v| > 0 && c != v[0]
    ensures Replace([c] + t, v, r) == [c] + Replace(t, v, r)
  {
    var s := [c] + t;
    assert s[1..] == t;
    if |s| >= |v| {
      assert s[..|v|][0] == c;
    } else {
      assert |t| < |v|;
    }
  }

  lemma ReplaceTakes(t: string, v: string, r: string)
    requires |v| > 0
    ensures Replace(v + t, v, r) == r + Replace(t, v, r)
  {
    assert (v + t)[..|v|] == v && (v + t)[|v|..] == t;
  }

  /** `~` not followed by the character the pattern wants is left alone. */
  lemma ReplaceKeepsTilde(t: string)
    ensures Replace("~0" + t, "~1", "/") == "~0" + Replace(t, "~1", "/")
  {
    var s := "~0" + t;
    assert s[..2] == "~0" && s[1..] == ['0'] + t;
    ReplaceSkips('0', t, "~1", "/");
    assert ['~'] + (['0'] + Replace(t, "~1", "/")) == "~0" + Replace(t, "~1", "/");
  }

  lemma {:induction false} RestoreSlashes(key: string)
    ensures Replace(Escape(key), "~1", "/") == EscapeTildes(key)
  {
    if key != "" {
      var rest := Escape(key[1..]);
      RestoreSlashes(key[1..]);
      if key[0] == '~' {
        ReplaceKeepsTilde(rest);
      } else if key[0] == '/' {
        ReplaceTakes(rest, "~1", "/");
      } else {
        ReplaceSkips(key[0], rest, "~1", "/");
      }
    }
  }

  lemma {:induction false} RestoreTildes(key: string)
    ensures Replace(EscapeTildes(key), "~0", "~") == key
  {
    if key != "" {
      var rest := EscapeTildes(key[1..]);
      RestoreTildes(key[1..]);
      assert key == [key[0]] + key[1..];
      if key[0] == '~' {
        ReplaceTakes(rest, "~0", "~");
      } else {
        ReplaceSkips(key[0], rest, "~0", "~");
      }
    }
  }

  lemma {:induction false} EscapeHasNoSlash(key: string)
    ensures '/' !in Escape(key)
  {
    if key != "" { EscapeHasNoSlash(key[1..]); }
  }

  lemma {:induction false} UnescapeEscapeAll(keys: seq<string>)
    ensures UnescapeAll(EscapeAll(keys)) == keys
    ensures forall p <- EscapeAll(keys) :: '/' !in p
  {
    if keys != [] {
      UnescapeEscapeAll(keys[1..]);
      RestoreSlashes(keys[0]);
      RestoreTildes(keys[0]);
      EscapeHasNoSlash(keys[0]);
      assert EscapeAll(keys)[1..] == EscapeAll(keys[1..]);
    }
  }

  /** The pointer written for a key path resolves to the node the path leads to, or to nothing
      when the path leads nowhere. */
  lemma PointerRoundTrip(keys: seq<string>, root: Json)
    requires keys != []
    ensures ResolveRef(PointerTo(keys), root) == OrNull(Walk(root, keys))
  {
    var parts := EscapeAll(keys);
    UnescapeEscapeAll(keys);
    SplitJoin(parts, '/');
    assert PointerTo(keys)[2..] == Join(parts, "/");
  }
}
