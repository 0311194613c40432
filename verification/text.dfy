/** JavaScript string semantics the model needs: truthiness and `String.prototype.trim`. */
module Text {

  /** A string is truthy in JavaScript exactly when it is non-empty. */
  predicate Truthy(s: string) {
    s != ""
  }

  /** The characters `trim` strips: WhiteSpace and LineTerminator of ECMA-262 (section 12.2 and 12.3). */
  predicate IsSpace(c: char) {
    ('\t' <= c <= '\r') || c == ' ' || c == '\U{A0}' || c == '\U{1680}'
    || ('\U{2000}' <= c <= '\U{200A}') || c == '\U{2028}' || c == '\U{2029}'
    || c == '\U{202F}' || c == '\U{205F}' || c == '\U{3000}' || c == '\U{FEFF}'
  }

  predicate AllSpace(s: string) {
    forall i :: 0 <= i < |s| ==> IsSpace(s[i])
  }

  /** Neither end of the string is whitespace. */
  predicate Trimmed(s: string) {
    s == [] || (!IsSpace(s[0]) && !IsSpace(s[|s| - 1]))
  }

  /** The first position at or after `i` that is not whitespace, or `|s|`. */
  function SkipSpace(s: string, i: int): (k: int)
    requires 0 <= i <= |s|
    ensures i <= k <= |s|
    ensures forall j :: i <= j < k ==> IsSpace(s[j])
    ensures k == |s| || !IsSpace(s[k])
    decreases |s| - i
  {
    if i < |s| && IsSpace(s[i]) then SkipSpace(s, i + 1) else i
  }

  /** The last position at or before `j` whose predecessor is not whitespace, or 0. */
  function SkipSpaceBack(s: string, j: int): (k: int)
    requires 0 <= j <= |s|
    ensures 0 <= k <= j
    ensures forall m :: k <= m < j ==> IsSpace(s[m])
    ensures k == 0 || !IsSpace(s[k - 1])
  {
    if 0 < j && IsSpace(s[j - 1]) then SkipSpaceBack(s, j - 1) else j
  }

  /** Where `trim` starts: the length of the leading whitespace. */
  function Lead(s: string): (a: nat)
    ensures a <= |s|
  {
    SkipSpace(s, 0)
  }

  /**
   * `s.trim()`: the result is the middle of `s` once whitespace-only ends
   * are cut off, and it starts and ends with a non-whitespace character.
   */
  function Trim(s: string): (r: string)
    ensures Trimmed(r)
    ensures Lead(s) + |r| <= |s| && r == s[Lead(s)..Lead(s) + |r|]
    ensures AllSpace(s[..Lead(s)]) && AllSpace(s[Lead(s) + |r|..])
  {
    var a := SkipSpace(s, 0);
    var b := SkipSpaceBack(s, |s|);
    assert AllSpace(s[..a]) by {
      forall i | 0 <= i < a ensures IsSpace(s[..a][i]) {
        assert s[..a][i] == s[i];
      }
    }
    if a == |s| then
      []
    else
      assert a < b by {
        assert !IsSpace(s[a]);
      }
      assert AllSpace(s[b..]) by {
        forall m | 0 <= m < |s| - b ensures IsSpace(s[b..][m]) {
          assert s[b..][m] == s[b + m];
        }
      }
      s[a..b]
  }

  /** Trimming a string twice is the same as trimming it once. */
  lemma TrimIdempotent(s: string)
    ensures Trim(Trim(s)) == Trim(s)
  {
    var r := Trim(s);
    if r != [] {
      assert SkipSpace(r, 0) == 0;
      assert SkipSpaceBack(r, |r|) == |r|;
    }
  }

  /** A string is empty after trimming exactly when it is all whitespace. */
  lemma TrimEmptyIffAllSpace(s: string)
    ensures Trim(s) == [] <==> AllSpace(s)
  {
    var r := Trim(s);
    var a := Lead(s);
    if r == [] {
      AllSpaceJoin(s, a);
    } else {
      assert s[a] == r[0];
    }
  }

  /** A string whose two halves are whitespace is whitespace. */
  lemma AllSpaceJoin(s: string, a: int)
    requires 0 <= a <= |s| && AllSpace(s[..a]) && AllSpace(s[a..])
    ensures AllSpace(s)
  {
    forall i | 0 <= i < |s| ensures IsSpace(s[i]) {
      if i < a {
        assert s[..a][i] == s[i];
      } else {
        assert s[a..][i - a] == s[i];
      }
    }
  }
}
