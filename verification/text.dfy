/** Character classes and string helpers shared by the tokenizer, the value
    conversions and the kebab-case converter. Case mapping is ASCII only. */
module Text {

  /** The two separators of the command-line tokenizer. */
  predicate IsBlank(c: char) { c == ' ' || c == '\t' }

  /** The Unicode White_Space set, as `char::is_whitespace` and `str::trim` use it. */
  predicate IsWhitespace(c: char) {
    ('\U{9}' <= c <= '\U{D}') || c == ' ' || c == '\U{85}' || c == '\U{A0}'
    || c == '\U{1680}' || ('\U{2000}' <= c <= '\U{200A}') || c == '\U{2028}'
    || c == '\U{2029}' || c == '\U{202F}' || c == '\U{205F}' || c == '\U{3000}'
  }

  predicate IsUpper(c: char) { 'A' <= c <= 'Z' }

  predicate IsLower(c: char) { 'a' <= c <= 'z' }

  function LowerChar(c: char): (r: char)
    ensures IsUpper(c) ==> IsLower(r) && r as int == c as int + 32
    ensures !IsUpper(c) ==> r == c
    ensures !IsUpper(r)
  {
    if IsUpper(c) then (c as int + 32) as char else c
  }

  /** `to_lowercase` restricted to ASCII: every letter A-Z is mapped, nothing else changes. */
  function Lower(s: string): (r: string)
    ensures |r| == |s|
    ensures forall i :: 0 <= i < |s| ==> r[i] == LowerChar(s[i])
  {
    if s == [] then [] else [LowerChar(s[0])] + Lower(s[1..])
  }

  predicate AllWhitespace(s: string) {
    forall i :: 0 <= i < |s| ==> IsWhitespace(s[i])
  }

  lemma WhitespaceCons(c: char, s: string)
    requires IsWhitespace(c) && AllWhitespace(s)
    ensures AllWhitespace([c] + s)
  {
    forall i | 0 < i < |s| + 1
      ensures IsWhitespace(([c] + s)[i])
    {
      assert ([c] + s)[i] == s[i - 1];
    }
  }

  lemma WhitespaceSnoc(s: string, c: char)
    requires AllWhitespace(s) && IsWhitespace(c)
    ensures AllWhitespace(s + [c])
  {
    forall i | 0 <= i < |s|
      ensures IsWhitespace((s + [c])[i])
    {
      assert (s + [c])[i] == s[i];
    }
  }

  /** Length of the leading run of white space. */
  function LeadingWhitespace(s: string): (k: nat)
    ensures k <= |s|
    ensures AllWhitespace(s[..k])
    ensures k < |s| ==> !IsWhitespace(s[k])
    decreases |s|
  {
    if s != [] && IsWhitespace(s[0]) then
      var k := 1 + LeadingWhitespace(s[1..]);
      assert s[..k] == [s[0]] + s[1..][..k - 1];
      WhitespaceCons(s[0], s[1..][..k - 1]);
      k
    else 0
  }

  /** Length of the trailing run of white space. */
  function TrailingWhitespace(s: string): (k: nat)
    ensures k <= |s|
    ensures AllWhitespace(s[|s| - k..])
    ensures k < |s| ==> !IsWhitespace(s[|s| - k - 1])
    decreases |s|
  {
    if s != [] && IsWhitespace(s[|s| - 1]) then
      var init := s[..|s| - 1];
      var k := 1 + TrailingWhitespace(init);
      assert s[|s| - k..] == init[|init| - (k - 1)..] + [s[|s| - 1]];
      WhitespaceSnoc(init[|init| - (k - 1)..], s[|s| - 1]);
      assert k < |s| ==> s[|s| - k - 1] == init[|init| - (k - 1) - 1];
      k
    else 0
  }

  /** `str::trim_start`. */
  function TrimStart(s: string): (r: string)
    ensures |r| <= |s| && r == s[|s| - |r|..]
    ensures r == [] <==> AllWhitespace(s)
    ensures r != [] ==> !IsWhitespace(r[0])
    ensures AllWhitespace(s[..|s| - |r|])
  {
    var k := LeadingWhitespace(s);
    assert k == |s| ==> s[..k] == s;
    s[k..]
  }

  /** `str::trim_end`. */
  function TrimEnd(s: string): (r: string)
    ensures |r| <= |s| && r == s[..|r|]
    ensures r == [] <==> AllWhitespace(s)
    ensures r != [] ==> !IsWhitespace(r[|r| - 1])
    ensures AllWhitespace(s[|r|..])
  {
    var k := TrailingWhitespace(s);
    assert k == |s| ==> s[|s| - k..] == s;
    s[..|s| - k]
  }

  /** Trimming the start one character at a time. */
  lemma TrimStartStep(s: string)
    ensures s != [] && IsWhitespace(s[0]) ==> TrimStart(s) == TrimStart(s[1..])
    ensures !(s != [] && IsWhitespace(s[0])) ==> TrimStart(s) == s
  {
    if s != [] && IsWhitespace(s[0]) {
      var k := LeadingWhitespace(s[1..]);
      assert s[1 + k..] == s[1..][k..];
    }
  }

  /** Trimming the end one character at a time. */
  lemma TrimEndStep(s: string)
    ensures s != [] && IsWhitespace(s[|s| - 1]) ==> TrimEnd(s) == TrimEnd(s[..|s| - 1])
    ensures !(s != [] && IsWhitespace(s[|s| - 1])) ==> TrimEnd(s) == s
  {
    if s != [] && IsWhitespace(s[|s| - 1]) {
      var init := s[..|s| - 1];
      var k := TrailingWhitespace(init);
      assert s[..|s| - (1 + k)] == init[..|init| - k];
    }
  }

  /** Text with no white space at either end is left as it is. */
  lemma TrimUntouched(s: string)
    requires s != [] ==> !IsWhitespace(s[0]) && !IsWhitespace(s[|s| - 1])
    ensures Trim(s) == s
  {
    TrimStartStep(s);
    TrimEndStep(s);
  }

  /** `str::trim`: what remains after dropping leading and trailing white space. */
  function Trim(s: string): (r: string)
    ensures r == TrimEnd(TrimStart(s))
    ensures r == [] <==> AllWhitespace(s)
    ensures r != [] ==> !IsWhitespace(r[0]) && !IsWhitespace(r[|r| - 1])
  {
    var a := TrimStart(s);
    var r := TrimEnd(a);
    assert r == [] <==> AllWhitespace(s) by {
      if AllWhitespace(a) {
        WhitespaceSplit(s, |s| - |a|);
      }
    }
    assert r != [] ==> !IsWhitespace(r[0]) by {
      if r != [] {
        assert r[0] == a[0];
      }
    }
    r
  }

  /** Trimming only removes characters. */
  lemma TrimKeeps(s: string)
    ensures forall c :: c in Trim(s) ==> c in s
  {
    var a := TrimStart(s);
    var r := TrimEnd(a);
    assert r == a[..|r|];
    assert a == s[|s| - |a|..];
  }

  /** `r` is a contiguous slice of `s` with only white space before it and
      only white space after it. */
  predicate BetweenWhitespace(s: string, r: string)
  {
    exists i :: 0 <= i <= |s| - |r| && r == s[i..i + |r|]
                && AllWhitespace(s[..i]) && AllWhitespace(s[i + |r|..])
  }

  /** `str::trim` returns the slice of the input between its leading and its
      trailing run of white space. */
  lemma TrimIsSlice(s: string)
    ensures BetweenWhitespace(s, Trim(s))
  {
    var a := TrimStart(s);
    SliceOfSuffix(s, a, TrimEnd(a));
  }

  /** A prefix `r` of a suffix `a` of `s`, with white space before `a` and
      after `r` in `a`, lies between white space in `s`. */
  lemma SliceOfSuffix(s: string, a: string, r: string)
    requires |a| <= |s| && a == s[|s| - |a|..] && |r| <= |a| && r == a[..|r|]
    requires AllWhitespace(s[..|s| - |a|]) && AllWhitespace(a[|r|..])
    ensures BetweenWhitespace(s, r)
  {
    var i := |s| - |a|;
    assert s[i + |r|..] == a[|r|..];
    assert r == s[i..i + |r|];
  }

  lemma WhitespaceSplit(s: string, k: nat)
    requires k <= |s| && AllWhitespace(s[..k]) && AllWhitespace(s[k..])
    ensures AllWhitespace(s)
  {
    forall i | 0 <= i < |s|
      ensures IsWhitespace(s[i])
    {
      if i < k {
        assert s[..k][i] == s[i];
      } else {
        assert s[k..][i - k] == s[i];
      }
    }
  }

  /** Number of occurrences of `c` in `s`. */
  function Occurrences(s: string, c: char): (n: nat)
    ensures n <= |s|
  {
    if s == [] then 0 else (if s[0] == c then 1 else 0) + Occurrences(s[1..], c)
  }

  /** Index of the first `sep` in `s`, or `|s|` when there is none. */
  function FirstIndex(s: string, sep: char): (k: nat)
    ensures k <= |s|
    ensures sep !in s[..k]
    ensures k < |s| ==> s[k] == sep
  {
    if s == [] || s[0] == sep then 0
    else
      var k := 1 + FirstIndex(s[1..], sep);
      assert s[..k] == [s[0]] + s[1..][..k - 1];
      k
  }

  /** `str::split(sep)`: the pieces between separators, empty ones kept. */
  function Split(s: string, sep: char): (pieces: seq<string>)
    ensures |pieces| >= 1
    ensures forall i :: 0 <= i < |pieces| ==> sep !in pieces[i]
    decreases |s|
  {
    var k := FirstIndex(s, sep);
    if k == |s| then [s] else [s[..k]] + Split(s[k + 1..], sep)
  }

  /** Gluing pieces back together with the separator between them. */
  function Join(pieces: seq<string>, sep: char): string
    requires |pieces| >= 1
  {
    if |pieces| == 1 then pieces[0] else pieces[0] + [sep] + Join(pieces[1..], sep)
  }

  lemma OccurrencesAppend(a: string, b: string, c: char)
    ensures Occurrences(a + b, c) == Occurrences(a, c) + Occurrences(b, c)
  {
    if a == [] {
      assert a + b == b;
    } else {
      assert (a + b)[1..] == a[1..] + b;
      OccurrencesAppend(a[1..], b, c);
    }
  }

  lemma OccurrencesAbsent(a: string, c: char)
    requires c !in a
    ensures Occurrences(a, c) == 0
  {
    if a != [] {
      assert c !in a[1..];
      OccurrencesAbsent(a[1..], c);
    }
  }

  /** Splitting on a separator and joining with it gives the text back. */
  lemma {:induction false} SplitJoin(s: string, sep: char)
    ensures Join(Split(s, sep), sep) == s
    decreases |s|
  {
    var k := FirstIndex(s, sep);
    if k < |s| {
      var tail := s[k + 1..];
      var pieces := Split(tail, sep);
      assert Split(s, sep) == [s[..k]] + pieces;
      SplitJoin(tail, sep);
      JoinCons(s[..k], pieces, sep);
      assert Join(Split(s, sep), sep) == s[..k] + [sep] + tail;
      assert s == s[..k] + [sep] + tail;
    } else {
      assert Split(s, sep) == [s];
    }
  }

  lemma JoinCons(head: string, pieces: seq<string>, sep: char)
    requires |pieces| >= 1
    ensures Join([head] + pieces, sep) == head + [sep] + Join(pieces, sep)
  {
    assert ([head] + pieces)[1..] == pieces;
  }

  /** There is one more piece than there are separators: empty pieces are kept. */
  lemma {:induction false} SplitCount(s: string, sep: char)
    ensures |Split(s, sep)| == Occurrences(s, sep) + 1
    decreases |s|
  {
    var k := FirstIndex(s, sep);
    assert s == s[..k] + s[k..];
    OccurrencesAppend(s[..k], s[k..], sep);
    OccurrencesAbsent(s[..k], sep);
    if k < |s| {
      SplitCount(s[k + 1..], sep);
      assert s[k..][1..] == s[k + 1..];
    } else {
      assert s[k..] == [];
    }
  }
}
