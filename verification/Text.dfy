/** String operations of the source's language that several modules share. */
module Text {

  predicate IsSpace(c: char) {
    c in {' ', '\t', '\n', '\r'}
    || c as int in {0x0B, 0x0C, 0xA0, 0x1680, 0x2028, 0x2029, 0x202F, 0x205F, 0x3000, 0xFEFF}
    || 0x2000 <= c as int <= 0x200A
  }

  ghost predicate AllSpace(s: string) {
    forall i :: 0 <= i < |s| ==> IsSpace(s[i])
  }

  function TrimStart(s: string): string {
    if s != "" && IsSpace(s[0]) then TrimStart(s[1..]) else s
  }

  function TrimEnd(s: string): string {
    if s != "" && IsSpace(s[|s| - 1]) then TrimEnd(s[..|s| - 1]) else s
  }

  function Trim(s: string): string {
    TrimEnd(TrimStart(s))
  }

  lemma {:induction false} TrimStartCuts(s: string) returns (before: string)
    ensures AllSpace(before) && s == before + TrimStart(s)
    ensures TrimStart(s) != "" ==> !IsSpace(TrimStart(s)[0])
  {
    before := "";
    if s != "" && IsSpace(s[0]) {
      var rest := TrimStartCuts(s[1..]);
      before := [s[0]] + rest;
    }
  }

  lemma {:induction false} TrimEndCuts(s: string) returns (after: string)
    ensures AllSpace(after) && s == TrimEnd(s) + after
    ensures TrimEnd(s) != "" ==> !IsSpace(TrimEnd(s)[|TrimEnd(s)| - 1])
  {
    after := "";
    if s != "" && IsSpace(s[|s| - 1]) {
      var rest := TrimEndCuts(s[..|s| - 1]);
      after := rest + [s[|s| - 1]];
      assert s == s[..|s| - 1] + [s[|s| - 1]];
    }
  }

  /** Trimming cuts white space at both ends, all of it, and nothing else. */
  lemma TrimCutsSpace(s: string) returns (before: string, after: string)
    ensures AllSpace(before) && AllSpace(after) && s == before + Trim(s) + after
    ensures Trim(s) != "" ==> !IsSpace(Trim(s)[0]) && !IsSpace(Trim(s)[|Trim(s)| - 1])
  {
    before := TrimStartCuts(s);
    after := TrimEndCuts(TrimStart(s));
    assert s == before + (Trim(s) + after);
    assert Trim(s) != "" ==> Trim(s)[0] == TrimStart(s)[0];
  }

  function ToLower(s: string): string {
    if s == "" then ""
    else [if 'A' <= s[0] <= 'Z' then (s[0] as int + 32) as char else s[0]] + ToLower(s[1..])
  }

  /** Capital letters become small, and nothing else changes. */
  lemma {:induction false} LowerInWords(s: string)
    ensures |ToLower(s)| == |s|
    ensures forall i :: 0 <= i < |s| ==>
      if 'A' <= s[i] <= 'Z' then ToLower(s)[i] as int - 'a' as int == s[i] as int - 'A' as int
      else ToLower(s)[i] == s[i]
  {
    if s != "" {
      LowerInWords(s[1..]);
      forall i | 1 <= i < |s| ensures ToLower(s)[i] == ToLower(s[1..])[i - 1] && s[i] == s[1..][i - 1] {
      }
    }
  }
}
