/**
 * String helpers with JavaScript semantics: `String.prototype.trim`,
 * `substring(0, n)` and string order, compared here by code point.
 */
module Text {

  /** The code points `trim` strips: ECMAScript WhiteSpace (tab, VT, FF, space, NBSP, BOM and
      the Zs category) and LineTerminator (LF, CR, LS, PS). */
  predicate IsWhitespace(c: char) {
    var n := c as int;
    n == 0x09 || n == 0x0A || n == 0x0B || n == 0x0C || n == 0x0D || n == 0x20 || n == 0xA0
    || n == 0x1680 || (0x2000 <= n <= 0x200A) || n == 0x2028 || n == 0x2029 || n == 0x202F
    || n == 0x205F || n == 0x3000 || n == 0xFEFF
  }

  /** Every character of `s` is whitespace (the empty string included). */
  predicate IsBlank(s: string) {
    forall i :: 0 <= i < |s| ==> IsWhitespace(s[i])
  }

  /** Drops the leading whitespace: the result is a suffix of `s`, what was dropped is all
      whitespace and the result does not start with whitespace. */
  function TrimStart(s: string): (r: string)
    ensures |r| <= |s| && r == s[|s| - |r|..]
    ensures forall i :: 0 <= i < |s| - |r| ==> IsWhitespace(s[i])
    ensures r == [] || !IsWhitespace(r[0])
  {
    if s != [] && IsWhitespace(s[0]) then TrimStart(s[1..]) else s
  }

  /** Drops the trailing whitespace: the result is a prefix of `s`, what was dropped is all
      whitespace and the result does not end with whitespace. */
  function TrimEnd(s: string): (r: string)
    ensures |r| <= |s| && r == s[..|r|]
    ensures forall i :: |r| <= i < |s| ==> IsWhitespace(s[i])
    ensures r == [] || !IsWhitespace(r[|r| - 1])
  {
    if s != [] && IsWhitespace(s[|s| - 1]) then TrimEnd(s[..|s| - 1]) else s
  }

  /** `s.trim()`. */
  function Trim(s: string): (r: string)
    ensures r == [] || (!IsWhitespace(r[0]) && !IsWhitespace(r[|r| - 1]))
  {
    TrimEnd(TrimStart(s))
  }

  /** The trimmed string is what is left of `s` after cutting whitespace from both ends:
      the characters from `lead` on, for its length, with only whitespace around them. */
  lemma TrimIsInfix(s: string)
    ensures var lead := |s| - |TrimStart(s)|; var n := |Trim(s)|;
      && lead + n <= |s|
      && (forall i :: 0 <= i < n ==> Trim(s)[i] == s[lead + i])
      && (forall i :: 0 <= i < lead ==> IsWhitespace(s[i]))
      && (forall i :: lead + n <= i < |s| ==> IsWhitespace(s[i]))
  {
    var t := TrimStart(s);
    var lead := |s| - |t|;
    var r := TrimEnd(t);
    forall i | 0 <= i < |t| ensures t[i] == s[lead + i] {
    }
    forall i | 0 <= i < |r| ensures r[i] == s[lead + i] {
      assert r[i] == t[i];
    }
    forall i | lead + |r| <= i < |s| ensures IsWhitespace(s[i]) {
      assert IsWhitespace(t[i - lead]);
    }
  }

  /** A note trims to nothing exactly when it is all whitespace. */
  lemma TrimEmptyIffBlank(s: string)
    ensures Trim(s) == [] <==> IsBlank(s)
  {
    var t := TrimStart(s);
    var lead := |s| - |t|;
    if Trim(s) == [] {
      // TrimStart left nothing: a non-empty `t` would start with a character TrimEnd keeps.
      assert t == [];
      assert s[..lead] == s;
    } else {
      assert t != [] && t[0] == s[lead];
    }
  }

  /** Trimming twice is trimming once. */
  lemma TrimIdempotent(s: string)
    ensures Trim(Trim(s)) == Trim(s)
  {
    var r := Trim(s);
    if r != [] {
      assert !IsWhitespace(r[0]) && !IsWhitespace(r[|r| - 1]);
      assert TrimStart(r) == r;
      assert TrimEnd(r) == r;
    }
  }

  /** `s.substring(0, n)`: the first `n` characters, or all of `s` when it is shorter. */
  function Prefix(s: string, n: nat): (r: string)
    ensures |r| == if |s| < n then |s| else n
    ensures r <= s
  {
    if |s| <= n then s else s[..n]
  }

  /** `a <= b` in string order, compared by code point: lexicographic by character, a
      proper prefix first. */
  predicate LexLe(a: string, b: string): (r: bool)
    ensures a <= b ==> r
  {
    a == [] || (b != [] && (a[0] < b[0] || (a[0] == b[0] && LexLe(a[1..], b[1..]))))
  }

  lemma {:induction false} LexLeTotal(a: string, b: string)
    ensures LexLe(a, b) || LexLe(b, a)
  {
    if a != [] && b != [] && a[0] == b[0] {
      LexLeTotal(a[1..], b[1..]);
    }
  }

  lemma {:induction false} LexLeTransitive(a: string, b: string, c: string)
    requires LexLe(a, b) && LexLe(b, c)
    ensures LexLe(a, c)
  {
    if a != [] && a[0] == b[0] && b[0] == c[0] {
      LexLeTransitive(a[1..], b[1..], c[1..]);
    }
  }
}
