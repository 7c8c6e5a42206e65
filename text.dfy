/**
 * The three JavaScript string operations that task search relies on:
 * `toLowerCase` (restricted to ASCII letters), `trim` (the ECMAScript
 * WhiteSpace and LineTerminator code points) and `includes`.
 */
module Text {

  /** ECMAScript `WhiteSpace` plus `LineTerminator`: the code points `trim` strips. */
  predicate IsWhitespace(c: char)
  {
    var n := c as int;
    n == 0x09 || n == 0x0A || n == 0x0B || n == 0x0C || n == 0x0D || n == 0x20 ||
    n == 0xA0 || n == 0x1680 || (0x2000 <= n <= 0x200A) || n == 0x2028 || n == 0x2029 ||
    n == 0x202F || n == 0x205F || n == 0x3000 || n == 0xFEFF
  }

  predicate IsBlank(s: string)
  {
    forall i :: 0 <= i < |s| ==> IsWhitespace(s[i])
  }

  /** Drops leading whitespace: the result is the suffix starting at the first non-space. */
  function TrimStart(s: string): (r: string)
    ensures |r| <= |s| && r == s[|s| - |r|..]
    ensures forall i :: 0 <= i < |s| - |r| ==> IsWhitespace(s[i])
    ensures r != [] ==> !IsWhitespace(r[0])
  {
    if s != [] && IsWhitespace(s[0]) then TrimStart(s[1..]) else s
  }

  /** Drops trailing whitespace: the result is the prefix ending at the last non-space. */
  function TrimEnd(s: string): (r: string)
    ensures |r| <= |s| && r == s[..|r|]
    ensures forall i :: |r| <= i < |s| ==> IsWhitespace(s[i])
    ensures r != [] ==> !IsWhitespace(r[|r| - 1])
  {
    if s != [] && IsWhitespace(s[|s| - 1]) then TrimEnd(s[..|s| - 1]) else s
  }

  /** `String.prototype.trim`. */
  function Trim(s: string): (r: string)
  {
    TrimEnd(TrimStart(s))
  }

  /**
   * Trimming yields a slice of the input: the one starting where `TrimStart`
   * stopped, whose ends `TrimStart` and `TrimEnd` show are not whitespace.
   */
  lemma TrimIsSlice(s: string)
    ensures var r, lo := Trim(s), |s| - |TrimStart(s)|;
      lo + |r| <= |s| && r == s[lo..lo + |r|]
  {
    var t := TrimStart(s);
    var r := TrimEnd(t);
    var lo := |s| - |t|;
    assert t == s[lo..] && r == t[..|r|];
  }

  /** A string made only of whitespace trims to the empty string. */
  lemma {:induction false} BlankTrimsToEmpty(s: string)
    requires IsBlank(s)
    ensures Trim(s) == []
  {
    if s != [] {
      assert IsBlank(s[1..]);
      BlankTrimsToEmpty(s[1..]);
    }
  }

  /** Trimming twice is trimming once. */
  lemma TrimIdempotent(s: string)
    ensures Trim(Trim(s)) == Trim(s)
  {
    var r := Trim(s);
    assert r != [] ==> r[0] == TrimStart(s)[0];
    assert TrimStart(r) == r;
  }

  /** Lowercases one character: an ASCII capital becomes its small letter, and every other character is kept. */
  function LowerChar(c: char): (r: char)
    ensures 'A' <= c <= 'Z' ==> r as int == c as int + 32
    ensures !('A' <= c <= 'Z') ==> r == c
  {
    if 'A' <= c <= 'Z' then (c as int + 32) as char else c
  }

  /** `String.prototype.toLowerCase` on ASCII letters; every other character is kept. */
  function ToLower(s: string): (r: string)
  {
    seq(|s|, i requires 0 <= i < |s| => LowerChar(s[i]))
  }

  /** Lowercasing keeps the length, leaves no ASCII capital behind and is idempotent. */
  lemma ToLowerProperties(s: string)
    ensures |ToLower(s)| == |s|
    ensures forall i :: 0 <= i < |s| ==> !('A' <= ToLower(s)[i] <= 'Z')
    ensures ToLower(ToLower(s)) == ToLower(s)
  {
  }

  /** Lowercasing never turns a non-space into a space or back, so it commutes with trimming. */
  lemma {:induction false} TrimToLowerCommute(s: string)
    ensures Trim(ToLower(s)) == ToLower(Trim(s))
  {
    TrimStartToLower(s);
    TrimEndToLower(TrimStart(s));
  }

  lemma {:induction false} TrimStartToLower(s: string)
    ensures TrimStart(ToLower(s)) == ToLower(TrimStart(s))
  {
    if s != [] {
      assert ToLower(s)[1..] == ToLower(s[1..]);
      TrimStartToLower(s[1..]);
    }
  }

  lemma {:induction false} TrimEndToLower(s: string)
    ensures TrimEnd(ToLower(s)) == ToLower(TrimEnd(s))
  {
    if s != [] {
      assert ToLower(s)[..|s| - 1] == ToLower(s[..|s| - 1]);
      TrimEndToLower(s[..|s| - 1]);
    }
  }

  /** `q` occurs in `s` at position `i`. */
  ghost predicate OccursAt(q: string, s: string, i: int)
  {
    0 <= i && i + |q| <= |s| && s[i..i + |q|] == q
  }

  ghost predicate IsSubstring(q: string, s: string)
  {
    exists i :: OccursAt(q, s, i)
  }

  /** `String.prototype.includes`: does `q` occur anywhere in `s`? */
  function Includes(s: string, q: string): (r: bool)
    ensures r <==> IsSubstring(q, s)
    decreases |s|
  {
    if |q| > |s| then false
    else if s[..|q|] == q then
      assert OccursAt(q, s, 0);
      true
    else
      OccursShift(q, s);
      Includes(s[1..], q)
  }

  /** Away from position 0, `q` occurs in `s` exactly where it occurs in `s[1..]`, one place later. */
  lemma OccursShift(q: string, s: string)
    requires |q| <= |s| && s != [] && s[..|q|] != q
    ensures IsSubstring(q, s) <==> IsSubstring(q, s[1..])
  {
    forall i | OccursAt(q, s[1..], i) ensures OccursAt(q, s, i + 1) {
      assert s[1..][i..i + |q|] == s[i + 1..i + 1 + |q|];
    }
    assert !OccursAt(q, s, 0) by { assert s[..|q|] == s[0..|q|]; }
    forall i | OccursAt(q, s, i) && i > 0 ensures OccursAt(q, s[1..], i - 1) {
      assert s[1..][i - 1..i - 1 + |q|] == s[i..i + |q|];
    }
  }

  /** The empty string is part of every string, as `"abc".includes("")` is true. */
  lemma EmptyIncludedEverywhere(s: string)
    ensures Includes(s, [])
  {
    assert OccursAt([], s, 0);
  }
}
