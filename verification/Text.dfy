/** Runes, white space and trimming, as the Go runner and the C# API see them. */
module Text {

  datatype Option<+T> = None | Some(value: T)

  /** The Unicode White_Space property, which Go's `unicode.IsSpace` and C#'s `char.IsWhiteSpace` share. */
  predicate IsSpace(c: char) {
    || '\t' <= c <= '\r'
    || c == ' '
    || c == '\U{85}'
    || c == '\U{A0}'
    || c == '\U{1680}'
    || '\U{2000}' <= c <= '\U{200A}'
    || c == '\U{2028}'
    || c == '\U{2029}'
    || c == '\U{202F}'
    || c == '\U{205F}'
    || c == '\U{3000}'
  }

  predicate IsBlank(s: string) {
    forall i | 0 <= i < |s| :: IsSpace(s[i])
  }

  function TrimStart(s: string): (r: string)
    ensures |r| <= |s| && r == s[|s| - |r|..] && IsBlank(s[..|s| - |r|])
    ensures r != "" ==> !IsSpace(r[0])
  {
    if s != "" && IsSpace(s[0]) then TrimStart(s[1..]) else s
  }

  function TrimEnd(s: string): (r: string)
    ensures r <= s && IsBlank(s[|r|..])
    ensures r != "" ==> !IsSpace(r[|r| - 1])
  {
    if s != "" && IsSpace(s[|s| - 1]) then TrimEnd(s[..|s| - 1]) else s
  }

  function Trim(s: string): string {
    TrimEnd(TrimStart(s))
  }

  lemma TrimStartFixed(s: string)
    requires s == "" || !IsSpace(s[0])
    ensures TrimStart(s) == s
  {
  }

  /** Trimming again changes nothing, and what is left is blank only if all was. */
  lemma TrimTwice(s: string)
    ensures Trim(Trim(s)) == Trim(s)
    ensures IsBlank(Trim(s)) <==> IsBlank(s)
    ensures IsBlank(s) <==> Trim(s) == ""
  {
    hide IsSpace, TrimStart, TrimEnd;
    var u := TrimStart(s);
    var t := TrimEnd(u);
    TrimStartFixed(t);
    TrimEndKept(t);
    BlankParts(s, u);
    BlankTrimmed(u, t);
  }

  lemma TrimEndKept(s: string)
    requires s == "" || !IsSpace(s[|s| - 1])
    ensures TrimEnd(s) == s
  {
  }

  lemma BlankParts(s: string, u: string)
    requires |u| <= |s| && u == s[|s| - |u|..] && IsBlank(s[..|s| - |u|]) && (u != "" ==> !IsSpace(u[0]))
    ensures IsBlank(s) <==> u == ""
  {
    hide IsSpace;
    if u == "" {
      assert s[..|s|] == s;
    } else {
      assert u[0] == s[|s| - |u|];
    }
  }

  lemma BlankTrimmed(u: string, t: string)
    requires t <= u && IsBlank(u[|t|..]) && (t != "" ==> !IsSpace(t[|t| - 1])) && (u != "" ==> !IsSpace(u[0]))
    ensures (u == "" <==> t == "") && (IsBlank(t) <==> t == "") && (t != "" ==> t[0] == u[0])
  {
    hide IsSpace;
    assert u != "" ==> u[0..][0] == u[0];
  }

  /** `strings.Contains(s, needle)` */
  predicate Contains(s: string, needle: string) {
    needle <= s || (s != "" && Contains(s[1..], needle))
  }

  /** `needle` stands at position `i` of `s`. */
  predicate StandsAt(s: string, needle: string, i: nat) {
    i + |needle| <= |s| && s[i..i + |needle|] == needle
  }

  /** The needle is found wherever it stands. */
  lemma {:induction false} ContainsMeaning(s: string, needle: string)
    ensures Contains(s, needle) <==> exists i: nat :: StandsAt(s, needle, i)
  {
    if s != "" {
      ContainsMeaning(s[1..], needle);
      if i: nat :| StandsAt(s, needle, i) {
        assert i == 0 || StandsAt(s[1..], needle, i - 1);
      }
      if i: nat :| StandsAt(s[1..], needle, i) {
        assert StandsAt(s, needle, i + 1);
      }
    }
    if needle <= s {
      assert StandsAt(s, needle, 0);
    }
  }
}
