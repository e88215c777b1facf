/** Escaping user text for HTML mail, and the decoder that undoes it. */
module Html {
  /** `replaceAll` with a one-character pattern. */
  function ReplaceAll(s: string, c: char, with: string): string {
    if s == "" then ""
    else (if s[0] == c then with else [s[0]]) + ReplaceAll(s[1..], c, with)
  }

  /** The four passes, in the order they are made. */
  function EscapeHtml(s: string): string {
    ReplaceAll(ReplaceAll(ReplaceAll(ReplaceAll(s, '&', "&amp;"), '<', "&lt;"), '>', "&gt;"), '"', "&quot;")
  }

  function Entity(c: char): string {
    if c == '&' then "&amp;"
    else if c == '<' then "&lt;"
    else if c == '>' then "&gt;"
    else if c == '"' then "&quot;"
    else [c]
  }

  /** One pass that replaces every special character at once. */
  function Substitute(s: string): string {
    if s == "" then "" else Entity(s[0]) + Substitute(s[1..])
  }

  /** The reader of escaped text: each of the four entities stands for its character. */
  function Decode(s: string): string
    decreases |s|
  {
    if s == "" then ""
    else if "&amp;" <= s then "&" + Decode(s[5..])
    else if "&lt;" <= s then "<" + Decode(s[4..])
    else if "&gt;" <= s then ">" + Decode(s[4..])
    else if "&quot;" <= s then "\"" + Decode(s[6..])
    else [s[0]] + Decode(s[1..])
  }

  lemma {:induction false} ReplaceConcat(a: string, b: string, c: char, with: string)
    ensures ReplaceAll(a + b, c, with) == ReplaceAll(a, c, with) + ReplaceAll(b, c, with)
  {
    if a == "" {
      assert a + b == b;
    } else {
      ReplaceConcat(a[1..], b, c, with);
      TailOfConcat(a, b);
      Regrouped(if a[0] == c then with else [a[0]], ReplaceAll(a[1..], c, with), ReplaceAll(b, c, with));
    }
  }

  lemma TailOfConcat(a: string, b: string)
    requires a != ""
    ensures (a + b)[0] == a[0] && (a + b)[1..] == a[1..] + b
  {
  }

  lemma Regrouped(a: string, b: string, c: string)
    ensures a + (b + c) == (a + b) + c
  {
  }

  lemma {:induction false} ReplaceAbsent(s: string, c: char, with: string)
    requires c !in s
    ensures ReplaceAll(s, c, with) == s
  {
    if s != "" {
      ReplaceAbsent(s[1..], c, with);
      assert s == [s[0]] + s[1..];
    }
  }

  lemma ReplaceOne(c: char, with: string)
    ensures ReplaceAll([c], c, with) == with
  {
    assert [c][1..] == "";
  }

  lemma EscapeConcat(a: string, b: string)
    ensures EscapeHtml(a + b) == EscapeHtml(a) + EscapeHtml(b)
  {
    var a1, b1 := ReplaceAll(a, '&', "&amp;"), ReplaceAll(b, '&', "&amp;");
    var a2, b2 := ReplaceAll(a1, '<', "&lt;"), ReplaceAll(b1, '<', "&lt;");
    var a3, b3 := ReplaceAll(a2, '>', "&gt;"), ReplaceAll(b2, '>', "&gt;");
    ReplaceConcat(a, b, '&', "&amp;");
    ReplaceConcat(a1, b1, '<', "&lt;");
    ReplaceConcat(a2, b2, '>', "&gt;");
    ReplaceConcat(a3, b3, '"', "&quot;");
  }

  /** A pass leaves alone a text without its character, in particular what another pass wrote. */
  lemma OnePass(s: string, c: char, with: string)
    requires s == [c] || c !in s
    ensures ReplaceAll(s, c, with) == if s == [c] then with else s
  {
    if s == [c] { ReplaceOne(c, with); } else { ReplaceAbsent(s, c, with); }
  }

  lemma EscapeOne(c: char)
    ensures EscapeHtml([c]) == Entity(c)
  {
    var s1 := if c == '&' then "&amp;" else [c];
    OnePass([c], '&', "&amp;");
    var s2 := if c == '<' then "&lt;" else s1;
    OnePass(s1, '<', "&lt;");
    var s3 := if c == '>' then "&gt;" else s2;
    OnePass(s2, '>', "&gt;");
    OnePass(s3, '"', "&quot;");
  }

  /** Four sequential passes are one simultaneous substitution. */
  lemma {:induction false} EscapeIsSubstitution(s: string)
    ensures EscapeHtml(s) == Substitute(s)
  {
    if s != "" {
      EscapeIsSubstitution(s[1..]);
      EscapeOne(s[0]);
      EscapeConcat([s[0]], s[1..]);
      assert s == [s[0]] + s[1..];
    }
  }

  ghost predicate StartsEntity(s: string) {
    "&amp;" <= s || "&lt;" <= s || "&gt;" <= s || "&quot;" <= s
  }

  /** No character of the text can open a tag, close one or end an attribute, and every ampersand
      starts an entity. */
  ghost predicate Inert(s: string) {
    forall i :: 0 <= i < |s| ==> s[i] !in {'<', '>', '"'} && (s[i] == '&' ==> StartsEntity(s[i..]))
  }

  lemma EntityThenInert(c: char, rest: string)
    requires Inert(rest)
    ensures Inert(Entity(c) + rest)
  {
    var e := Entity(c);
    var s := e + rest;
    forall i | 0 <= i < |s| ensures s[i] !in {'<', '>', '"'} && (s[i] == '&' ==> StartsEntity(s[i..])) {
      if i >= |e| {
        assert s[i..] == rest[i - |e|..];
      } else if i == 0 {
        assert s[0..] == s && e <= s;
      }
    }
  }

  lemma {:induction false} SubstituteInert(s: string)
    ensures Inert(Substitute(s))
  {
    if s != "" {
      SubstituteInert(s[1..]);
      EntityThenInert(s[0], Substitute(s[1..]));
    }
  }

  lemma DecodeEntity(c: char, rest: string)
    ensures Decode(Entity(c) + rest) == [c] + Decode(rest)
  {
    var e := Entity(c);
    assert (e + rest)[|e|..] == rest;
    assert e <= e + rest;
    assert (e + rest)[0] == e[0];
    if e != [c] {
      assert (e + rest)[1] == e[1] && (e + rest)[2] == e[2];
    }
  }

  lemma {:induction false} DecodeSubstitute(s: string)
    ensures Decode(Substitute(s)) == s
  {
    if s != "" {
      DecodeSubstitute(s[1..]);
      DecodeEntity(s[0], Substitute(s[1..]));
      assert s == [s[0]] + s[1..];
    }
  }

  /** Escaped text is inert in HTML and decodes to exactly the original. */
  lemma EscapedTextIsSafeAndFaithful(s: string)
    ensures Inert(EscapeHtml(s))
    ensures Decode(EscapeHtml(s)) == s
  {
    EscapeIsSubstitution(s);
    SubstituteInert(s);
    DecodeSubstitute(s);
  }

  /** What becomes of each special character; every other one stays. */
  lemma EscapedCharacters(c: char)
    ensures c == '&' ==> EscapeHtml([c]) == "&amp;"
    ensures c == '<' ==> EscapeHtml([c]) == "&lt;"
    ensures c == '>' ==> EscapeHtml([c]) == "&gt;"
    ensures c == '"' ==> EscapeHtml([c]) == "&quot;"
    ensures c !in {'&', '<', '>', '"'} ==> EscapeHtml([c]) == [c]
  {
    EscapeOne(c);
  }
}
