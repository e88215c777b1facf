/** The manifest's file name: slugs, the download header, and reading the name back from it.
 *
 * Slug input is text already in NFKD form without combining accents, and the date part is the ten
 * characters of an ISO date.
 */
module Filenames {
  import opened Domain
  import Text

  predicate IsSlugChar(c: char) {
    'a' <= c <= 'z' || '0' <= c <= '9'
  }

  function DropRun(s: string): (rest: string)
    ensures |rest| <= |s|
    ensures rest != "" ==> IsSlugChar(rest[0])
  {
    if s == "" || IsSlugChar(s[0]) then s else DropRun(s[1..])
  }

  /** Every maximal run of other characters becomes one dash. */
  function Collapse(s: string): string
    decreases |s|
  {
    if s == "" then ""
    else if IsSlugChar(s[0]) then [s[0]] + Collapse(s[1..])
    else "-" + Collapse(DropRun(s[1..]))
  }

  function DropLeading(s: string): string {
    if s != "" && s[0] == '-' then DropLeading(s[1..]) else s
  }

  function DropTrailing(s: string): string {
    if s != "" && s[|s| - 1] == '-' then DropTrailing(s[..|s| - 1]) else s
  }

  function Slug(value: string): string {
    var slugged := DropTrailing(DropLeading(Collapse(Text.ToLower(value))));
    if slugged == "" then "unknown" else slugged
  }

  /** Only slug characters and single dashes. */
  ghost predicate SingleDashes(s: string) {
    && (forall i :: 0 <= i < |s| ==> IsSlugChar(s[i]) || s[i] == '-')
    && (forall i :: 0 <= i < |s| - 1 ==> !(s[i] == '-' && s[i + 1] == '-'))
  }

  /** The shape of a slug: `[a-z0-9]+(-[a-z0-9]+)*`. */
  ghost predicate IsSlug(s: string) {
    s != "" && SingleDashes(s) && s[0] != '-' && s[|s| - 1] != '-'
  }

  lemma {:induction false} CollapseHasSingleDashes(s: string)
    ensures SingleDashes(Collapse(s))
    ensures s != "" && IsSlugChar(s[0]) ==> Collapse(s) != "" && Collapse(s)[0] == s[0]
    decreases |s|
  {
    if s != "" {
      CollapseHasSingleDashes(if IsSlugChar(s[0]) then s[1..] else DropRun(s[1..]));
    }
  }

  lemma {:induction false} LeadingDropped(s: string)
    requires SingleDashes(s)
    ensures SingleDashes(DropLeading(s))
    ensures DropLeading(s) != "" ==> DropLeading(s)[0] != '-'
  {
    if s != "" && s[0] == '-' {
      LeadingDropped(s[1..]);
    }
  }

  lemma {:induction false} TrailingDropped(s: string)
    requires SingleDashes(s) && (s != "" ==> s[0] != '-')
    ensures var d := DropTrailing(s); d == "" || IsSlug(d)
  {
    if s != "" && s[|s| - 1] == '-' {
      TrailingDropped(s[..|s| - 1]);
    }
  }

  /** Every slug is non-empty, in `[a-z0-9-]`, with no leading, trailing or doubled dash. */
  lemma SlugIsSlug(value: string)
    ensures IsSlug(Slug(value))
  {
    CollapseHasSingleDashes(Text.ToLower(value));
    LeadingDropped(Collapse(Text.ToLower(value)));
    TrailingDropped(DropLeading(Collapse(Text.ToLower(value))));
  }

  lemma {:induction false} LowerIsUnchanged(s: string)
    requires forall i :: 0 <= i < |s| ==> !('A' <= s[i] <= 'Z')
    ensures Text.ToLower(s) == s
  {
    if s != "" {
      LowerIsUnchanged(s[1..]);
      assert s == [s[0]] + s[1..];
    }
  }

  lemma {:induction false} CollapseUnchanged(s: string)
    requires SingleDashes(s) && (s != "" ==> s[|s| - 1] != '-')
    ensures Collapse(s) == s
    decreases |s|
  {
    if s != "" {
      assert s == [s[0]] + s[1..];
      if !IsSlugChar(s[0]) {
        assert s[1] != '-';
        assert DropRun(s[1..]) == s[1..];
      }
      CollapseUnchanged(s[1..]);
    }
  }

  /** The slugs are exactly the fixed points of `Slug`. */
  lemma SlugsAreFixedPoints(s: string)
    ensures IsSlug(s) <==> Slug(s) == s
  {
    if IsSlug(s) {
      LowerIsUnchanged(s);
      CollapseUnchanged(s);
    }
    SlugIsSlug(s);
  }

  lemma SlugIdempotent(value: string)
    ensures Slug(Slug(value)) == Slug(value)
  {
    SlugIsSlug(value);
    SlugsAreFixedPoints(Slug(value));
  }

  // ---- slugs are dashed words ----

  predicate IsLetterOrDigit(c: char) {
    '0' <= c <= '9' || 'a' <= c <= 'z'
  }

  /** The longest runs of letters and digits, in order. */
  function Words(s: string): (words: seq<string>)
    ensures s != "" && IsLetterOrDigit(s[0]) ==> words != [] && words[0] != "" && words[0][0] == s[0]
  {
    if s == "" then []
    else if !IsLetterOrDigit(s[0]) then Words(s[1..])
    else if |s| == 1 || !IsLetterOrDigit(s[1]) then [[s[0]]] + Words(s[1..])
    else
      var rest := Words(s[1..]);
      [[s[0]] + rest[0]] + rest[1..]
  }

  function Dashed(words: seq<string>): string {
    if words == [] then ""
    else if |words| == 1 then words[0]
    else words[0] + "-" + Dashed(words[1..])
  }

  ghost predicate AllWords(words: seq<string>) {
    forall i :: 0 <= i < |words| ==>
      words[i] != "" && forall k :: 0 <= k < |words[i]| ==> IsSlugChar(words[i][k])
  }

  lemma {:induction false} WordsAreWords(s: string)
    ensures AllWords(Words(s))
  {
    if s != "" {
      WordsAreWords(s[1..]);
      if IsLetterOrDigit(s[0]) && |s| > 1 && IsLetterOrDigit(s[1]) {
        var rest := Words(s[1..]);
        assert rest[0] != "";
        forall k | 0 <= k < 1 + |rest[0]| ensures IsSlugChar(([s[0]] + rest[0])[k]) {
          assert k > 0 ==> ([s[0]] + rest[0])[k] == rest[0][k - 1];
        }
      }
    }
  }

  lemma {:induction false} DashedEnds(words: seq<string>)
    requires words != [] && AllWords(words)
    ensures var d := Dashed(words); d != "" && IsSlugChar(d[0]) && IsSlugChar(d[|d| - 1])
  {
    if |words| > 1 {
      DashedEnds(words[1..]);
    }
  }

  /** A run of other characters has no words, and hides none. */
  lemma {:induction false} RunHasNoWords(s: string)
    ensures Words(DropRun(s)) == Words(s)
    ensures DropRun(s) != "" ==> DropRun(s)[|DropRun(s)| - 1] == s[|s| - 1]
    ensures DropRun(s) == "" && s != "" ==> !IsSlugChar(s[|s| - 1])
  {
    if s != "" && !IsSlugChar(s[0]) {
      RunHasNoWords(s[1..]);
    }
  }

  function Dash(present: bool): string {
    if present then "-" else ""
  }

  ghost predicate EndsOutside(s: string) {
    s != "" && !IsSlugChar(s[|s| - 1])
  }

  /** Collapsing leaves the words with a dash between them, and one at an end where other characters stand. */
  lemma {:induction false} CollapsedWords(s: string)
    ensures WordsCollapse(s)
    decreases |s|
  {
    if s == "" {
    } else if !IsSlugChar(s[0]) {
      CollapsedWords(DropRun(s[1..]));
      CollapsedAfterOther(s);
    } else if |s| == 1 {
      assert Collapse(s[1..]) == "" && Words(s[1..]) == [];
    } else if IsSlugChar(s[1]) {
      CollapsedWords(s[1..]);
      CollapsedWithinWord(s);
    } else {
      CollapsedWords(s[1..]);
      CollapsedAfterWord(s);
    }
  }

  ghost predicate WordsCollapse(s: string) {
    var words := Words(s);
    if words == [] then Collapse(s) == Dash(s != "") && (s != "" ==> EndsOutside(s))
    else s != "" && Collapse(s) == Dash(!IsSlugChar(s[0])) + (Dashed(words) + Dash(EndsOutside(s)))
  }

  lemma CollapsedAfterOther(s: string)
    requires s != "" && !IsSlugChar(s[0]) && WordsCollapse(DropRun(s[1..]))
    ensures WordsCollapse(s)
  {
    var rest := DropRun(s[1..]);
    RunHasNoWords(s[1..]);
    assert Words(s) == Words(rest) && Collapse(s) == "-" + Collapse(rest);
    if Words(rest) != [] {
      var tail := Dashed(Words(rest)) + Dash(EndsOutside(rest));
      assert Dash(false) + tail == tail;
    }
  }

  lemma CollapsedWithinWord(s: string)
    requires |s| > 1 && IsSlugChar(s[0]) && IsSlugChar(s[1]) && WordsCollapse(s[1..])
    ensures WordsCollapse(s)
  {
    var rest := Words(s[1..]);
    var words := [[s[0]] + rest[0]] + rest[1..];
    assert Words(s) == words && words[1..] == rest[1..];
    assert Dashed(words) == [s[0]] + Dashed(rest);
    assert Collapse(s) == [s[0]] + Collapse(s[1..]);
    assert EndsOutside(s) == EndsOutside(s[1..]);
  }

  lemma CollapsedAfterWord(s: string)
    requires |s| > 1 && IsSlugChar(s[0]) && !IsSlugChar(s[1]) && WordsCollapse(s[1..])
    ensures WordsCollapse(s)
  {
    var rest := Words(s[1..]);
    var words := [[s[0]]] + rest;
    assert Words(s) == words && words[1..] == rest;
    assert Collapse(s) == [s[0]] + Collapse(s[1..]);
    assert EndsOutside(s) == EndsOutside(s[1..]);
    if rest != [] {
      assert Dashed(words) == [s[0]] + "-" + Dashed(rest);
    }
  }

  lemma LeadingDashDropped(before: bool, s: string)
    requires s != "" && s[0] != '-'
    ensures DropLeading(Dash(before) + s) == s
  {
    var t := Dash(before) + s;
    if before {
      assert t[0] == '-' && t[1..] == s;
    } else {
      assert t == s;
    }
  }

  lemma TrailingDashDropped(s: string, after: bool)
    requires s != "" && s[|s| - 1] != '-'
    ensures DropTrailing(s + Dash(after)) == s
  {
    var t := s + Dash(after);
    if after {
      assert t[|t| - 1] == '-' && t[..|t| - 1] == s;
    } else {
      assert t == s;
    }
  }

  /** A slug is the words of the lower-cased text with single dashes between them, or "unknown" if there are none. */
  lemma SlugIsDashedWords(value: string)
    ensures var words := Words(Text.ToLower(value));
            Slug(value) == if words == [] then "unknown" else Dashed(words)
  {
    var s := Text.ToLower(value);
    CollapsedWords(s);
    WordsAreWords(s);
    if Words(s) == [] {
      assert DropTrailing(DropLeading(Collapse(s))) == "";
    } else {
      DashedEnds(Words(s));
      LeadingDashDropped(!IsSlugChar(s[0]), Dashed(Words(s)) + Dash(EndsOutside(s)));
      TrailingDashDropped(Dashed(Words(s)), EndsOutside(s));
    }
  }

  // ---- the header ----

  function ManifestFilename(artist: string, city: string, date: string): string {
    "manifest-" + Slug(artist) + "-" + Slug(city) + "-" + date + ".csv"
  }

  function ContentDisposition(filename: string): string {
    "attachment; filename=\"" + filename + "\""
  }

  const PREFIX := "filename=\""

  /** The longest start of `s` without a quote. */
  function UntilQuote(s: string): string {
    if s == "" || s[0] == '"' then "" else [s[0]] + UntilQuote(s[1..])
  }

  /** `filename="([^"]+)"` at the start of `s`. */
  function MatchHere(s: string): Option<string> {
    if !(PREFIX <= s) then None
    else
      var name := UntilQuote(s[|PREFIX|..]);
      if name == "" || |PREFIX| + |name| >= |s| then None else Some(name)
  }

  /** The leftmost match anywhere in `s`. */
  function FirstMatch(s: string): Option<string> {
    if MatchHere(s).Some? then MatchHere(s)
    else if s == "" then None
    else FirstMatch(s[1..])
  }

  function FilenameFromContentDisposition(header: Option<string>): Option<string> {
    if header.None? || header.value == "" then None else FirstMatch(header.value)
  }

  lemma {:induction false} UntilQuoteStops(name: string, rest: string)
    requires '"' !in name
    ensures UntilQuote(name + "\"" + rest) == name
  {
    var s := name + "\"" + rest;
    if name != "" {
      UntilQuoteStops(name[1..], rest);
      assert s[1..] == name[1..] + "\"" + rest;
      assert name == [name[0]] + name[1..];
    }
  }

  /** No match starts where the tenth character is not the quote of the prefix. */
  lemma NoMatchBefore(s: string)
    requires |s| < |PREFIX| || s[|PREFIX| - 1] != '"'
    ensures MatchHere(s).None?
  {
  }

  lemma {:induction false} SkipsTo(before: string, s: string)
    requires '"' !in before
    requires MatchHere(s).Some?
    ensures FirstMatch(before + s) == MatchHere(s)
  {
    if before == "" {
      assert before + s == s;
    } else {
      var text := before + s;
      assert text[|PREFIX| - 1] != '"' by {
        if |PREFIX| - 1 < |before| {
          assert text[|PREFIX| - 1] == before[|PREFIX| - 1];
        } else {
          assert text[|PREFIX| - 1] == s[|PREFIX| - 1 - |before|] == PREFIX[|PREFIX| - 1 - |before|];
        }
      }
      NoMatchBefore(text);
      SkipsTo(before[1..], s);
      assert text[1..] == before[1..] + s;
    }
  }

  lemma {:induction false} NoQuoteBeforeIt(s: string)
    ensures '"' !in UntilQuote(s)
  {
    if s != "" && s[0] != '"' {
      NoQuoteBeforeIt(s[1..]);
    }
  }

  /** Whatever is read from a header is non-empty and has no quote. */
  lemma {:induction false} MatchIsAName(s: string)
    ensures FirstMatch(s).Some? ==> FirstMatch(s).value != "" && '"' !in FirstMatch(s).value
  {
    if MatchHere(s).Some? {
      NoQuoteBeforeIt(s[|PREFIX|..]);
    } else if s != "" {
      MatchIsAName(s[1..]);
    }
  }

  /** Exactly the non-empty names without a quote survive the header. */
  lemma HeaderReadsBack(name: string)
    ensures FilenameFromContentDisposition(Some(ContentDisposition(name))) == Some(name)
       <==> name != "" && '"' !in name
  {
    MatchIsAName(ContentDisposition(name));
    if name != "" && '"' !in name {
      NameIsFound(name);
    }
  }

  lemma NameIsFound(name: string)
    requires name != "" && '"' !in name
    ensures FilenameFromContentDisposition(Some(ContentDisposition(name))) == Some(name)
  {
    var s := PREFIX + name + "\"";
    assert s[|PREFIX|..] == name + "\"" + "";
    UntilQuoteStops(name, "");
    assert PREFIX <= s;
    assert ContentDisposition(name) == "attachment; " + s;
    SkipsTo("attachment; ", s);
  }

  /** The browser saves the manifest under exactly the name the server gave it: slugs have no quotes, so it does
      unless the date has one. */
  lemma ManifestNameReadsBack(artist: string, city: string, date: string)
    ensures var name := ManifestFilename(artist, city, date);
            FilenameFromContentDisposition(Some(ContentDisposition(name))) == Some(name) <==> '"' !in date
  {
    SlugIsSlug(artist);
    SlugIsSlug(city);
    NoQuoteInSlug(Slug(artist));
    NoQuoteInSlug(Slug(city));
    var front := "manifest-" + Slug(artist) + "-" + Slug(city) + "-";
    assert ManifestFilename(artist, city, date) == front + date + ".csv";
    assert '"' !in front && '"' !in ".csv";
    HeaderReadsBack(ManifestFilename(artist, city, date));
  }

  lemma NoQuoteInSlug(s: string)
    requires IsSlug(s)
    ensures '"' !in s
  {
    forall i | 0 <= i < |s| ensures s[i] != '"' {
      assert IsSlugChar(s[i]) || s[i] == '-';
    }
  }
}
