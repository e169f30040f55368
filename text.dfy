/** String operations the JavaScript runtime provides to the core:
    `String.prototype.includes`, `toLowerCase` and `trim`. */
module Text {

  /** `p` occurs in `s` starting at position `i`. */
  predicate OccursAt(s: string, p: string, i: int)
  {
    0 <= i && i + |p| <= |s| && s[i..i + |p|] == p
  }

  /** `p` occurs in `s` at some position: the meaning of `s.includes(p)`. */
  ghost predicate Occurs(s: string, p: string)
  {
    exists i :: OccursAt(s, p, i)
  }

  /** `s.includes(p)`, computed by scanning `s` from the left. */
  function Includes(s: string, p: string): bool
    decreases |s|
  {
    if |s| < |p| then false
    else if s[..|p|] == p then true
    else Includes(s[1..], p)
  }

  /** The scan finds `p` exactly when `p` occurs somewhere in `s`. */
  lemma {:induction false} IncludesIffOccurs(s: string, p: string)
    ensures Includes(s, p) <==> Occurs(s, p)
    decreases |s|
  {
    if |s| < |p| {
      assert !Occurs(s, p);
    } else if s[..|p|] == p {
      assert OccursAt(s, p, 0);
    } else {
      IncludesIffOccurs(s[1..], p);
      if Occurs(s[1..], p) {
        var i :| OccursAt(s[1..], p, i);
        OccursShift(s, p, i);
      }
      if Occurs(s, p) {
        var i :| OccursAt(s, p, i);
        OccursShift(s, p, i - 1);
      }
    }
  }

  /** An occurrence in the tail of `s` is an occurrence in `s` one position
      further on. */
  lemma OccursShift(s: string, p: string, i: int)
    requires 0 <= i && |s| > 0
    ensures OccursAt(s[1..], p, i) <==> OccursAt(s, p, i + 1)
  {
    if i + 1 + |p| <= |s| {
      assert s[1..][i..i + |p|] == s[i + 1..i + 1 + |p|];
    }
  }

  /** A pattern that occurs in `p` occurs in every string `p` occurs in. */
  lemma OccursTransitive(s: string, p: string, q: string)
    requires Occurs(s, p) && Occurs(p, q)
    ensures Occurs(s, q)
  {
    var i :| OccursAt(s, p, i);
    var j :| OccursAt(p, q, j);
    forall m | 0 <= m < |q|
      ensures s[i + j + m] == q[m]
    {
      assert q[m] == p[j + m] == s[i + j + m];
    }
    assert s[i + j..i + j + |q|] == q;
    assert OccursAt(s, q, i + j);
  }

  /** Every string occurs in itself. */
  lemma OccursSelf(s: string)
    ensures Occurs(s, s)
  {
    assert OccursAt(s, s, 0);
  }

  /** A string occurs in any string it is a part of. */
  lemma OccursInConcat(a: string, p: string, b: string)
    ensures Occurs(a + p + b, p)
  {
    assert OccursAt(a + p + b, p, |a|);
  }

  /** ASCII lower-casing of one character. */
  function LowerChar(c: char): char
  {
    if 'A' <= c <= 'Z' then (c as int + 32) as char else c
  }

  /** ASCII upper-casing of one character. */
  function UpperChar(c: char): char
  {
    if 'a' <= c <= 'z' then (c as int - 32) as char else c
  }

  /** `s.toLowerCase()`, restricted to ASCII letters. */
  function ToLower(s: string): (r: string)
    ensures |r| == |s|
    ensures forall i :: 0 <= i < |s| ==> r[i] == LowerChar(s[i])
    ensures forall i :: 0 <= i < |r| ==> !('A' <= r[i] <= 'Z')
  {
    seq(|s|, i requires 0 <= i < |s| => LowerChar(s[i]))
  }

  /** `s.toUpperCase()`, restricted to ASCII letters. */
  function ToUpper(s: string): (r: string)
    ensures |r| == |s|
    ensures forall i :: 0 <= i < |s| ==> r[i] == UpperChar(s[i])
  {
    seq(|s|, i requires 0 <= i < |s| => UpperChar(s[i]))
  }

  /** Lower-casing forgets the case a string was written in. */
  lemma LowerOfUpper(s: string)
    ensures ToLower(ToUpper(s)) == ToLower(s)
    ensures ToLower(ToLower(s)) == ToLower(s)
  {
    forall i | 0 <= i < |s|
      ensures ToLower(ToUpper(s))[i] == ToLower(s)[i]
    {
      assert LowerChar(UpperChar(s[i])) == LowerChar(s[i]);
    }
  }

  /** The characters `String.prototype.trim` removes: the ECMAScript
      WhiteSpace and LineTerminator code points. */
  predicate IsWhitespace(c: char)
  {
    var n := c as int;
    n == 0x09 || n == 0x0A || n == 0x0B || n == 0x0C || n == 0x0D || n == 0x20
    || n == 0xA0 || n == 0x1680 || (0x2000 <= n <= 0x200A)
    || n == 0x2028 || n == 0x2029 || n == 0x202F || n == 0x205F
    || n == 0x3000 || n == 0xFEFF
  }

  /** No whitespace at either end. */
  predicate IsTrimmed(s: string)
  {
    s == [] || (!IsWhitespace(s[0]) && !IsWhitespace(s[|s| - 1]))
  }

  /** The first position at or after `i` that is not whitespace (or the
      end of `s`). */
  function SkipLeading(s: string, i: nat): (n: nat)
    requires i <= |s|
    ensures i <= n <= |s|
    ensures forall k :: i <= k < n ==> IsWhitespace(s[k])
    ensures n < |s| ==> !IsWhitespace(s[n])
    decreases |s| - i
  {
    if i < |s| && IsWhitespace(s[i]) then SkipLeading(s, i + 1) else i
  }

  /** The end of `s[..j]` once its trailing whitespace, down to position
      `lo`, is dropped. */
  function SkipTrailing(s: string, lo: nat, j: nat): (n: nat)
    requires lo <= j <= |s|
    ensures lo <= n <= j
    ensures forall k :: n <= k < j ==> IsWhitespace(s[k])
    ensures n > lo ==> !IsWhitespace(s[n - 1])
    decreases j
  {
    if j > lo && IsWhitespace(s[j - 1]) then SkipTrailing(s, lo, j - 1) else j
  }

  /** `r` is the slice of `s` that starts at `k`, and everything of `s`
      outside that slice is whitespace. */
  predicate StripsTo(s: string, r: string, k: int)
  {
    OccursAt(s, r, k)
    && (forall i :: 0 <= i < k ==> IsWhitespace(s[i]))
    && (forall i :: k + |r| <= i < |s| ==> IsWhitespace(s[i]))
  }

  /** `s.trim()`: `s` without whitespace at its ends. */
  function Trim(s: string): (r: string)
    ensures IsTrimmed(r)
  {
    var lo := SkipLeading(s, 0);
    var hi := SkipTrailing(s, lo, |s|);
    s[lo..hi]
  }

  /** Trimming keeps a slice of `s` and drops only whitespace. */
  lemma TrimStrips(s: string)
    ensures exists k :: StripsTo(s, Trim(s), k)
  {
    var lo := SkipLeading(s, 0);
    var hi := SkipTrailing(s, lo, |s|);
    assert Trim(s) == s[lo..hi];
    assert StripsTo(s, Trim(s), lo);
  }

  /** Trimming a string that has no whitespace at its ends changes nothing,
      so trimming twice is trimming once. */
  lemma TrimOfTrimmed(s: string)
    requires IsTrimmed(s)
    ensures Trim(s) == s
  {
  }

  /** A string without any whitespace character is its own trim. */
  lemma TrimNoWhitespace(s: string)
    requires forall i :: 0 <= i < |s| ==> !IsWhitespace(s[i])
    ensures Trim(s) == s
  {
    TrimOfTrimmed(s);
  }
}
