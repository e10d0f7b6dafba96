/** `_slug` and `_sanitize`: turning arbitrary text into identifiers. `str.lower` is a parameter,
    as its tables belong to the Python runtime. */
module Slugs {
  import opened Text

  type Lower = string -> string

  predicate Alnum(c: char) { 'a' <= c <= 'z' || '0' <= c <= '9' }
  predicate Ident(c: char) { Alnum(c) || c == '_' }

  /** `lower` leaves text alone that is made of lower-case letters, digits, `_` and `-`. */
  ghost predicate LowerFixesPlain(lower: Lower) {
    forall s :: (forall c <- s :: Ident(c) || c == '-') ==> lower(s) == s
  }

  /** `re.sub("[bad]+", "_", s)`, read left to right; `inRun` says the run's `_` is already out. */
  function SubRuns(s: string, bad: char -> bool, inRun: bool): (r: string) {
    if s == "" then ""
    else if bad(s[0]) then (if inRun then "" else "_") + SubRuns(s[1..], bad, true)
    else [s[0]] + SubRuns(s[1..], bad, false)
  }

  function StripLeft(s: string): (r: string) {
    if s != "" && s[0] == '_' then StripLeft(s[1..]) else s
  }

  function StripRight(s: string): (r: string) {
    if s != "" && s[|s| - 1] == '_' then StripRight(s[..|s| - 1]) else s
  }

  predicate NotIdent(c: char) { !Ident(c) }
  predicate IsUnderscore(c: char) { c == '_' }
  predicate NotAlnum(c: char) { !Alnum(c) }

  function Slug(lower: Lower, text: string): (r: string) {
    var s := SubRuns(lower(text), NotIdent, false);
    var t := StripRight(StripLeft(SubRuns(s, IsUnderscore, false)));
    if t == "" then "op" else t
  }

  function Sanitize(lower: Lower, name: string): (r: string) { SanitizeChars(lower(name)) }

  function SanitizeChars(s: string): (r: string)
    ensures |r| == |s|
    ensures forall i :: 0 <= i < |s| ==> r[i] == if Ident(s[i]) then s[i] else '_'
  {
    if s == "" then "" else [if Ident(s[0]) then s[0] else '_'] + SanitizeChars(s[1..])
  }

  /** Text that Python takes for a name, given the words it does not let one bind. */
  predicate Identifier(reserved: set<string>, s: string) { Legal(reserved, s) && forall c <- s :: Ident(c) }

  /** What is left to ask of text that has been sanitised. */
  predicate Legal(reserved: set<string>, s: string) { s != "" && !('0' <= s[0] <= '9') && s !in reserved }

  /** Sanitised text is a name unless it is empty, starts with a digit or is reserved. */
  lemma SanitizedIdentifier(lower: Lower, reserved: set<string>, name: string)
    ensures Identifier(reserved, Sanitize(lower, name)) <==> Legal(reserved, Sanitize(lower, name))
  {
    var s := Sanitize(lower, name);
    forall c | c in s ensures Ident(c) {
      var i :| 0 <= i < |s| && s[i] == c;
    }
  }

  /** A name sanitiser. */
  type Safe = string -> string

  function SanitizeWith(lower: Lower): (r: Safe) { (name: string) => Sanitize(lower, name) }

  // ----- the reference: the words of the text, joined by single underscores

  /** The maximal runs of letters and digits in `word + s`, `word` being the run under way. */
  function Words(s: string, word: string): (r: seq<string>) {
    if s == "" then (if word == "" then [] else [word])
    else if Alnum(s[0]) then Words(s[1..], word + [s[0]])
    else (if word == "" then [] else [word]) + Words(s[1..], "")
  }

  ghost predicate IsWord(w: string) { w != "" && forall c <- w :: Alnum(c) }

  lemma {:induction false} WordsAreWords(s: string, word: string)
    requires forall c <- word :: Alnum(c)
    ensures forall w <- Words(s, word) :: IsWord(w)
    decreases |s|
  {
    if s != "" { WordsAreWords(s[1..], if Alnum(s[0]) then word + [s[0]] else ""); }
  }

  /** Two passes, over foreign characters and then over underscores, are one over non-letters. */
  lemma {:induction false} TwoPassesAreOne(s: string, run1: bool, run2: bool)
    requires run1 ==> run2
    ensures SubRuns(SubRuns(s, NotIdent, run1), IsUnderscore, run2) == SubRuns(s, NotAlnum, run2)
  {
    if s != "" {
      var c, rest := s[0], s[1..];
      if Ident(c) {
        var tail := SubRuns(rest, NotIdent, false);
        assert ([c] + tail)[1..] == tail;
        TwoPassesAreOne(rest, false, c == '_');
      } else if run1 {
        assert "" + SubRuns(rest, NotIdent, true) == SubRuns(rest, NotIdent, true);
        TwoPassesAreOne(rest, true, true);
      } else {
        var tail := SubRuns(rest, NotIdent, true);
        assert ("_" + tail)[1..] == tail;
        TwoPassesAreOne(rest, true, true);
      }
    }
  }

  lemma {:induction false} InRunStartsWithLetter(s: string)
    ensures var q := SubRuns(s, NotAlnum, true); q != "" ==> q[0] != '_'
  {
    if s != "" {
      InRunStartsWithLetter(s[1..]);
      assert "" + SubRuns(s[1..], NotAlnum, true) == SubRuns(s[1..], NotAlnum, true);
    }
  }

  lemma StrippedLeft(s: string)
    ensures StripLeft(SubRuns(s, NotAlnum, false)) == SubRuns(s, NotAlnum, true)
  {
    if s != "" {
      InRunStartsWithLetter(s[1..]);
      var tail := SubRuns(s[1..], NotAlnum, true);
      assert ("_" + tail)[1..] == tail && "" + tail == tail;
    }
  }

  lemma {:induction false} StripRightConcat(a: string, b: string)
    ensures StripRight(a + b) == if StripRight(b) == "" then StripRight(a) else a + StripRight(b)
    decreases |b|
  {
    if b == "" {
      assert a + b == a;
    } else if b[|b| - 1] == '_' {
      assert (a + b)[..|a + b| - 1] == a + b[..|b| - 1];
      StripRightConcat(a, b[..|b| - 1]);
    }
  }

  lemma JoinedWordsNotEmpty(ws: seq<string>)
    requires forall w <- ws :: IsWord(w)
    ensures Join(ws, "_") == "" <==> ws == []
  {
    if ws != [] { assert IsWord(ws[0]); }
  }

  lemma StripWord(word: string)
    requires forall c <- word :: Alnum(c)
    ensures StripRight(word) == word
  {
    if word != "" { assert Alnum(word[|word| - 1]); }
  }

  /** A finished word followed by more text. */
  lemma WordBoundary(word: string, q: string, ws: seq<string>)
    requires IsWord(word) && (forall w <- ws :: IsWord(w)) && StripRight(q) == Join(ws, "_")
    ensures StripRight(word + ("_" + q)) == Join([word] + ws, "_")
  {
    assert word + ("_" + q) == word + "_" + q;
    StripRightConcat(word + "_", q);
    StripRightConcat(word, "_");
    assert StripRight("_") == "" by { assert "_"[..0] == ""; }
    StripWord(word);
    JoinedWordsNotEmpty(ws);
    if ws == [] {
      assert [word] + ws == [word];
    } else {
      JoinCons(word, ws, "_");
    }
  }

  lemma {:induction false} StrippedIsJoined(s: string, word: string)
    requires forall c <- word :: Alnum(c)
    ensures StripRight(word + SubRuns(s, NotAlnum, word == "")) == Join(Words(s, word), "_")
    decreases |s|
  {
    if s == "" {
      assert word + "" == word;
      StripWord(word);
    } else if Alnum(s[0]) {
      var q := SubRuns(s[1..], NotAlnum, false);
      assert word + ([s[0]] + q) == word + [s[0]] + q;
      StrippedIsJoined(s[1..], word + [s[0]]);
    } else {
      var q, ws := SubRuns(s[1..], NotAlnum, true), Words(s[1..], "");
      StrippedIsJoined(s[1..], "");
      assert "" + q == q;
      if word == "" {
        assert [] + ws == ws;
      } else {
        WordsAreWords(s[1..], "");
        WordBoundary(word, q, ws);
      }
    }
  }

  /** A slug is the words of the lower-cased text joined by single underscores, or `op`. */
  lemma SlugIsJoinedWords(lower: Lower, text: string)
    ensures Slug(lower, text) == (if Words(lower(text), "") == [] then "op" else Join(Words(lower(text), ""), "_"))
  {
    var s := lower(text);
    TwoPassesAreOne(s, false, false);
    StrippedLeft(s);
    StrippedIsJoined(s, "");
    assert "" + SubRuns(s, NotAlnum, true) == SubRuns(s, NotAlnum, true);
    WordsAreWords(s, "");
    JoinedWordsNotEmpty(Words(s, ""));
  }

  // ----- what slugs look like

  ghost predicate SlugShaped(s: string) {
    && s != "" && (forall c <- s :: Ident(c))
    && !Contains(s, "__") && s[0] != '_' && s[|s| - 1] != '_'
  }

  ghost predicate NoTwins(s: string) { forall i :: 0 <= i < |s| - 1 ==> !(s[i] == '_' && s[i + 1] == '_') }

  lemma TwinsAreContained(s: string)
    ensures Contains(s, "__") <==> !NoTwins(s)
  {
    if Contains(s, "__") {
      var i :| 0 <= i <= |s| - 2 && OccursAt(s, "__", i);
      assert s[i..i + 2][0] == '_' && s[i..i + 2][1] == '_';
    }
    if !NoTwins(s) {
      var i :| 0 <= i < |s| - 1 && s[i] == '_' && s[i + 1] == '_';
      assert s[i..i + 2] == "__";
      assert OccursAt(s, "__", i);
    }
  }

  lemma WordIsSlugShaped(w: string)
    requires IsWord(w)
    ensures SlugShaped(w)
  {
    assert forall i :: 0 <= i < |w| ==> Alnum(w[i]);
    TwinsAreContained(w);
  }

  /** Two slugs joined by one underscore make a slug. */
  lemma JoinSlugs(a: string, b: string)
    requires SlugShaped(a) && SlugShaped(b)
    ensures SlugShaped(a + "_" + b)
  {
    TwinsAreContained(a);
    TwinsAreContained(b);
    TwinsAreContained(a + "_" + b);
  }

  lemma {:induction false} JoinedWordsSlugShaped(ws: seq<string>)
    requires ws != [] && forall w <- ws :: IsWord(w)
    ensures SlugShaped(Join(ws, "_"))
  {
    WordIsSlugShaped(ws[0]);
    if |ws| > 1 {
      JoinedWordsSlugShaped(ws[1..]);
      JoinSlugs(ws[0], Join(ws[1..], "_"));
    }
  }

  lemma SlugIsSlugShaped(lower: Lower, text: string)
    ensures SlugShaped(Slug(lower, text))
  {
    SlugIsJoinedWords(lower, text);
    var ws := Words(lower(text), "");
    WordsAreWords(lower(text), "");
    if ws == [] { WordIsSlugShaped("op"); } else { JoinedWordsSlugShaped(ws); }
  }

  lemma {:induction false} SubRunsFixed(s: string, bad: char -> bool)
    requires forall c <- s :: !bad(c)
    ensures SubRuns(s, bad, false) == s
  {
    if s != "" { SubRunsFixed(s[1..], bad); }
  }

  lemma {:induction false} CollapseFixed(s: string, inRun: bool)
    requires NoTwins(s) && (inRun && s != "" ==> s[0] != '_')
    ensures SubRuns(s, IsUnderscore, inRun) == s
  {
    if s != "" { CollapseFixed(s[1..], s[0] == '_'); }
  }

  /** Slug-shaped text is a fixed point of both `_slug` and `_sanitize`. */
  lemma SlugShapedFixed(lower: Lower, s: string)
    requires SlugShaped(s) && LowerFixesPlain(lower)
    ensures Slug(lower, s) == s && Sanitize(lower, s) == s
  {
    assert lower(s) == s;
    SubRunsFixed(s, NotIdent);
    TwinsAreContained(s);
    CollapseFixed(s, false);
  }
}
