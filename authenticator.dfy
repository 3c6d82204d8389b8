/** The two string normalisers applied to e-mail addresses and user names before they are
    stored or compared. A `char` here is a Unicode scalar value; where JavaScript's answer
    depends on UTF-16 code units (the user-name pattern has no `u` flag), a character
    above U+FFFF is counted as its two units. */
module Normalize {
  import Text

  predicate IsUpper(c: char)
  {
    'A' <= c <= 'Z'
  }

  /** The characters the user-name pattern keeps: `[a-zA-Z0-9_]`. */
  predicate IsWordChar(c: char)
  {
    ('a' <= c <= 'z') || IsUpper(c) || ('0' <= c <= '9') || c == '_'
  }

  /** The characters a normalised user name is made of: `[a-z0-9_]`. */
  predicate IsUsernameChar(c: char)
  {
    ('a' <= c <= 'z') || ('0' <= c <= '9') || c == '_'
  }

  /** `toLowerCase` on one code unit of the ASCII range: A-Z move down to a-z. */
  function LowerChar(c: char): (d: char)
    ensures !IsUpper(d)
    ensures d == c <==> !IsUpper(c)
    ensures IsUpper(c) ==> 'a' <= d <= 'z'
  {
    if IsUpper(c) then (c as int + 32) as char else c
  }

  /** `toLowerCase`, code unit by code unit. */
  function ToLower(s: string): (r: string)
    ensures |r| == |s|
    ensures forall i :: 0 <= i < |s| ==> r[i] == LowerChar(s[i])
    decreases |s|
  {
    if |s| == 0 then "" else [LowerChar(s[0])] + ToLower(s[1..])
  }

  /** `normalizeEmail`: the address in lower case. Only the letters A-Z change, nothing is
      added or dropped, and no upper-case letter is left. */
  function NormalizeEmail(s: string): (r: string)
    ensures |r| == |s|
    ensures forall i :: 0 <= i < |s| ==> (r[i] == s[i] <==> !IsUpper(s[i]))
    ensures forall i :: 0 <= i < |s| ==> !IsUpper(r[i])
  {
    ToLower(s)
  }

  /** A string without upper-case letters is left as it is. */
  lemma ToLowerKeepsLower(s: string)
    requires forall i :: 0 <= i < |s| ==> !IsUpper(s[i])
    ensures ToLower(s) == s
  {
  }

  /** Normalising an address twice is normalising it once. */
  lemma NormalizeEmailIdempotent(s: string)
    ensures NormalizeEmail(NormalizeEmail(s)) == NormalizeEmail(s)
  {
    ToLowerKeepsLower(NormalizeEmail(s));
  }

  /** What the user-name pattern makes of one character: a pattern character stays, any
      other becomes one `_` per UTF-16 code unit, so two above U+FFFF. */
  function ReplaceChar(c: char): (r: string)
    ensures |r| == Text.Utf16Length([c])
    ensures forall i :: 0 <= i < |r| ==> IsWordChar(r[i])
    ensures IsWordChar(c) ==> r == [c]
    ensures !IsWordChar(c) ==> forall i :: 0 <= i < |r| ==> r[i] == '_'
  {
    if IsWordChar(c) then [c] else if Text.InBmp(c) then "_" else "__"
  }

  /** `s.replace(/[^a-zA-Z0-9_]/g, "_")`: without the `u` flag the pattern runs over code
      units, so the result has the input's `.length` and only pattern characters; on a
      string of the BMP each character outside the pattern becomes one underscore in its
      place. */
  function ReplaceNonWord(s: string): (r: string)
    ensures |r| == Text.Utf16Length(s)
    ensures forall i :: 0 <= i < |r| ==> IsWordChar(r[i])
    ensures (forall i :: 0 <= i < |s| ==> Text.InBmp(s[i])) ==>
      forall i :: 0 <= i < |s| ==> r[i] == (if IsWordChar(s[i]) then s[i] else '_')
    decreases |s|
  {
    if |s| == 0 then ""
    else
      var rest := ReplaceNonWord(s[1..]);
      assert forall i :: 1 <= i < |s| ==> s[i] == s[1..][i - 1];
      assert Text.Utf16Length(s) == Text.Utf16Length([s[0]]) + Text.Utf16Length(s[1..]);
      ReplaceChar(s[0]) + rest
  }

  /** The replacement works character by character: it distributes over concatenation. */
  lemma {:induction false} ReplaceNonWordConcat(a: string, b: string)
    ensures ReplaceNonWord(a + b) == ReplaceNonWord(a) + ReplaceNonWord(b)
    decreases |a|
  {
    if |a| == 0 {
      assert a + b == b;
    } else {
      assert (a + b)[0] == a[0] && (a + b)[1..] == a[1..] + b;
      ReplaceNonWordConcat(a[1..], b);
    }
  }

  /** `normalizeUsername`: as long as the input's `.length`, made only of `[a-z0-9_]`; on a
      string of the BMP a pattern character keeps its place in lower case and every other
      character becomes `_`. */
  function NormalizeUsername(s: string): (r: string)
    ensures |r| == Text.Utf16Length(s)
    ensures forall i :: 0 <= i < |r| ==> IsUsernameChar(r[i])
    ensures (forall i :: 0 <= i < |s| ==> Text.InBmp(s[i])) ==>
      && (forall i :: 0 <= i < |s| ==> (r[i] == '_' <==> (s[i] == '_' || !IsWordChar(s[i]))))
      && (forall i :: 0 <= i < |s| && IsWordChar(s[i]) ==> r[i] == LowerChar(s[i]))
  {
    ToLower(ReplaceNonWord(s))
  }

  /** A character above U+FFFF counts as two code units: `normalizeUsername("a😀")` is
      `"a__"`. */
  lemma AstralCharTwoUnderscores(c: char)
    requires !Text.InBmp(c)
    ensures NormalizeUsername(['a', c]) == "a__"
  {
    assert ['a', c] == ['a'] + [c];
    ReplaceNonWordConcat(['a'], [c]);
    assert ReplaceNonWord([c]) == "__";
  }

  /** A name already made of `[a-z0-9_]` is its own normal form. */
  lemma UsernameFixed(s: string)
    requires forall i :: 0 <= i < |s| ==> IsUsernameChar(s[i])
    ensures NormalizeUsername(s) == s
  {
  }

  /** Normalising a user name twice is normalising it once. */
  lemma NormalizeUsernameIdempotent(s: string)
    ensures NormalizeUsername(NormalizeUsername(s)) == NormalizeUsername(s)
  {
    UsernameFixed(NormalizeUsername(s));
  }

  /** Two names with the same normal form have the same `.length`; on strings of the BMP
      they agree position by position up to case and up to which characters outside the
      pattern stood there. */
  lemma SameUsernameNormalForm(a: string, b: string)
    requires NormalizeUsername(a) == NormalizeUsername(b)
    ensures Text.Utf16Length(a) == Text.Utf16Length(b)
    ensures (forall i :: 0 <= i < |a| ==> Text.InBmp(a[i])) &&
            (forall i :: 0 <= i < |b| ==> Text.InBmp(b[i])) ==>
      && |a| == |b|
      && forall i :: 0 <= i < |a| && IsWordChar(a[i]) && a[i] != '_' ==> LowerChar(a[i]) == LowerChar(b[i])
  {
    var r := NormalizeUsername(a);
    if (forall i :: 0 <= i < |a| ==> Text.InBmp(a[i])) && (forall i :: 0 <= i < |b| ==> Text.InBmp(b[i])) {
      assert |a| == |r| == |b|;
      forall i | 0 <= i < |a| && IsWordChar(a[i]) && a[i] != '_'
        ensures LowerChar(a[i]) == LowerChar(b[i])
      {
        assert r[i] == LowerChar(a[i]) && r[i] != '_';
        assert IsWordChar(b[i]) && r[i] == LowerChar(b[i]);
      }
    }
  }
}
