/** The kebab-case converter the derive macros use to turn variant names
    into command and value names: characters are lowercased and a dash is
    inserted at word boundaries, decided on a sliding window of three
    characters. Letter classes and case mapping are ASCII. */
module KebabCase {
  import opened Wrappers
  import opened Text

  /** Between a lowercase letter and an uppercase one (`abC` gives `ab-c`). */
  predicate WordDash(s: string, p: nat)
    requires p < |s|
  {
    p >= 1 && IsLower(s[p - 1]) && IsUpper(s[p])
  }

  /** Before the last capital of an acronym that a lowercase letter follows
      (`ABc` gives `a-bc`). */
  predicate AcronymDash(s: string, p: nat)
    requires p < |s|
  {
    p >= 1 && p + 1 < |s| && IsUpper(s[p - 1]) && IsUpper(s[p]) && IsLower(s[p + 1])
  }

  predicate DashBefore(s: string, p: nat)
    requires p < |s|
  {
    WordDash(s, p) || AcronymDash(s, p)
  }

  /** What the converter writes for character `p`: a dash when one goes
      before it, then the character lowercased. */
  function Piece(s: string, p: nat): string
    requires p < |s|
  {
    (if DashBefore(s, p) then "-" else "") + [LowerChar(s[p])]
  }

  /** The output for the first `k` characters. */
  function KebabUpTo(s: string, k: nat): string
    requires k <= |s|
  {
    if k == 0 then "" else KebabUpTo(s, k - 1) + Piece(s, k - 1)
  }

  function Kebab(s: string): string
  {
    KebabUpTo(s, |s|)
  }

  /** `to_kebab_case_case`: `n1` is the current character with its
      lowercase flag, `n2` and `n3` the one and two before it. */
  method ToKebabCase(s: string) returns (buffer: string)
    ensures buffer == Kebab(s)
  {
    buffer := "";
    if |s| > 0 {
      var n2: Option<(bool, char)> := None;
      var n1: (bool, char) := (IsLower(s[0]), s[0]);
      for j := 1 to |s|
        invariant n1 == (IsLower(s[j - 1]), s[j - 1])
        invariant n2 == if j >= 2 then Some((IsLower(s[j - 2]), s[j - 2])) else None
        invariant buffer == KebabUpTo(s, j - 1) + (if WordDash(s, j - 1) then "-" else "")
      {
        var prev := n1;
        var n3 := n2;
        n2 := Some(n1);
        n1 := (IsLower(s[j]), s[j]);
        ghost var pending := if WordDash(s, j - 1) then "-" else "";
        ghost var before := buffer;
        if n3.Some? && !n3.value.0 && n2.Some? && !n2.value.0 && n1.0
           && IsUpper(n3.value.1) && IsUpper(n2.value.1) {
          buffer := buffer + "-";
        }
        buffer := buffer + [LowerChar(prev.1)];
        assert buffer == KebabUpTo(s, j - 1) + Piece(s, j - 1) by {
          if AcronymDash(s, j - 1) {
            assert pending == "";
          }
        }
        if n2.Some? && n2.value.0 && IsUpper(n1.1) {
          buffer := buffer + "-";
        }
      }
      buffer := buffer + [LowerChar(n1.1)];
    }
  }

  // ---------------------------------------------------------------------
  // Properties

  function RemoveDashes(s: string): (r: string)
    ensures '-' !in r
  {
    if s == [] then "" else (if s[0] == '-' then "" else [s[0]]) + RemoveDashes(s[1..])
  }

  lemma {:induction false} RemoveDashesAppend(a: string, b: string)
    ensures RemoveDashes(a + b) == RemoveDashes(a) + RemoveDashes(b)
  {
    if a == [] {
      assert a + b == b;
    } else {
      assert (a + b)[1..] == a[1..] + b;
      RemoveDashesAppend(a[1..], b);
    }
  }

  /** With its dash removed, a piece is the lowercased character. */
  lemma PieceWithoutDash(s: string, p: nat)
    requires p < |s| && s[p] != '-'
    ensures RemoveDashes(Piece(s, p)) == [LowerChar(s[p])]
  {
    var c := LowerChar(s[p]);
    assert c != '-';
    RemoveDashesAppend(if DashBefore(s, p) then "-" else "", [c]);
    assert RemoveDashes([c]) == [c] by {
      assert [c][1..] == [];
    }
  }

  lemma LowerSnoc(s: string, k: nat)
    requires 0 < k <= |s|
    ensures Lower(s[..k]) == Lower(s[..k - 1]) + [LowerChar(s[k - 1])]
  {
  }

  /** Every character is written exactly once, lowercased and in order: with
      the inserted dashes removed, the output of a dash-free input is the
      input lowercased. */
  lemma {:induction false} DashesAreTheOnlyAdditions(s: string, k: nat)
    requires k <= |s|
    requires '-' !in s
    ensures RemoveDashes(KebabUpTo(s, k)) == Lower(s[..k])
    decreases k
  {
    if k > 0 {
      DashesAreTheOnlyAdditions(s, k - 1);
      RemoveDashesAppend(KebabUpTo(s, k - 1), Piece(s, k - 1));
      assert s[k - 1] in s;
      PieceWithoutDash(s, k - 1);
      LowerSnoc(s, k);
    }
  }

  /** The output is empty exactly for the empty input, and it never starts
      with an inserted dash. */
  lemma KebabStart(s: string)
    ensures Kebab(s) == [] <==> s == []
    ensures s != [] ==> Kebab(s)[0] == LowerChar(s[0])
  {
    if s != [] {
      KebabPrefix(s, 1, |s|);
      assert KebabUpTo(s, 1) == [LowerChar(s[0])];
    }
  }

  /** The output for a longer prefix extends the output for a shorter one. */
  lemma {:induction false} KebabPrefix(s: string, j: nat, k: nat)
    requires j <= k <= |s|
    ensures KebabUpTo(s, j) <= KebabUpTo(s, k)
    ensures |KebabUpTo(s, k)| >= k
    decreases k
  {
    if k > 0 {
      KebabPrefix(s, if j == k then k - 1 else j, k - 1);
      if j < k {
        var a := KebabUpTo(s, k - 1);
        assert KebabUpTo(s, k) == a + Piece(s, k - 1);
        assert KebabUpTo(s, k)[..|a|] == a;
      }
    }
  }

  predicate NoUpper(s: string)
  {
    forall i :: 0 <= i < |s| ==> !IsUpper(s[i])
  }

  /** An input with no uppercase letter comes back unchanged (`list` stays
      `list`). */
  lemma {:induction false} NoUpperUnchanged(s: string, k: nat)
    requires k <= |s|
    requires NoUpper(s)
    ensures KebabUpTo(s, k) == s[..k]
    decreases k
  {
    if k > 0 {
      NoUpperUnchanged(s, k - 1);
      assert !DashBefore(s, k - 1);
      assert s[..k] == s[..k - 1] + [s[k - 1]];
    }
  }

  /** The output holds no uppercase letter. */
  lemma {:induction false} KebabNoUpper(s: string, k: nat)
    requires k <= |s|
    ensures NoUpper(KebabUpTo(s, k))
    decreases k
  {
    if k > 0 {
      KebabNoUpper(s, k - 1);
      var a := KebabUpTo(s, k - 1);
      var p := Piece(s, k - 1);
      assert NoUpper(p);
      assert forall i :: |a| <= i < |a + p| ==> (a + p)[i] == p[i - |a|];
    }
  }

  /** Converting twice is converting once. */
  lemma Idempotent(s: string)
    ensures Kebab(Kebab(s)) == Kebab(s)
  {
    var t := Kebab(s);
    KebabNoUpper(s, |s|);
    NoUpperUnchanged(t, |t|);
    assert t[..|t|] == t;
  }

  /** A camel-case name splits at its inner capital. */
  lemma ComposedName(s: string)
    requires s == "ComposedName"
    ensures Kebab(s) == "composed-name"
  {
    ComposedFirstWord(s);
    assert KebabUpTo(s, 9) == "composed-n" by {
      assert WordDash(s, 8);
    }
    assert KebabUpTo(s, 10) == "composed-na";
    assert KebabUpTo(s, 11) == "composed-nam";
  }

  lemma ComposedFirstWord(s: string)
    requires s == "ComposedName"
    ensures KebabUpTo(s, 8) == "composed"
  {
    assert KebabUpTo(s, 1) == "c";
    assert KebabUpTo(s, 2) == "co";
    assert KebabUpTo(s, 3) == "com";
    assert KebabUpTo(s, 4) == "comp";
    assert KebabUpTo(s, 5) == "compo";
    assert KebabUpTo(s, 6) == "compos";
    assert KebabUpTo(s, 7) == "compose";
  }

  lemma SmallExamples(a: string, b: string)
    requires a == "abC" && b == "ABc"
    ensures Kebab(a) == "ab-c"
    ensures Kebab(b) == "a-bc"
  {
    assert KebabUpTo(a, 1) == "a";
    assert KebabUpTo(a, 2) == "ab";
    assert WordDash(a, 2);
    assert KebabUpTo(b, 1) == "a";
    assert AcronymDash(b, 1);
    assert KebabUpTo(b, 2) == "a-b";
  }
}
