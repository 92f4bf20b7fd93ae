/**
 * The string operations the handlers use: `String.prototype.trim` and
 * `toLowerCase`, and the character classes of the regular expressions.
 */
module Text {

  /** ECMAScript WhiteSpace and LineTerminator: what `trim` strips and `\s` matches. */
  predicate IsSpace(c: char) {
    || c == '\t' || c == '\n' || c == '\U{000B}' || c == '\U{000C}' || c == '\r' || c == ' '
    || c == '\U{00A0}' || c == '\U{1680}' || ('\U{2000}' <= c <= '\U{200A}')
    || c == '\U{2028}' || c == '\U{2029}' || c == '\U{202F}' || c == '\U{205F}'
    || c == '\U{3000}' || c == '\U{FEFF}'
  }

  /** The characters `.` does not match in a regular expression without the `s` flag. */
  predicate IsLineTerminator(c: char) {
    c == '\n' || c == '\r' || c == '\U{2028}' || c == '\U{2029}'
  }

  predicate AllSpace(s: string) {
    forall i :: 0 <= i < |s| ==> IsSpace(s[i])
  }

  /**
   * `s.trim()`: white space removed from both ends, one character at a time;
   * the result neither starts nor ends with white space.
   */
  function Trim(s: string): (r: string)
    ensures |r| <= |s|
    ensures r == [] || (!IsSpace(r[0]) && !IsSpace(r[|r| - 1]))
    decreases |s|
  {
    if s != [] && IsSpace(s[0]) then Trim(s[1..])
    else if s != [] && IsSpace(s[|s| - 1]) then Trim(s[..|s| - 1])
    else s
  }

  /** A string without white space at its ends is its own trim. */
  lemma TrimKeepsTrimmed(s: string)
    requires s == [] || (!IsSpace(s[0]) && !IsSpace(s[|s| - 1]))
    ensures Trim(s) == s
  {
  }

  /** Trimming a string that is already trimmed changes nothing. */
  lemma TrimIdempotent(s: string)
    ensures Trim(Trim(s)) == Trim(s)
  {
    TrimKeepsTrimmed(Trim(s));
  }

  /** `r` is `s` with some white space taken off each end. */
  predicate SpaceAround(s: string, r: string) {
    exists a, b :: 0 <= a <= b <= |s| && r == s[a..b] && AllSpace(s[..a]) && AllSpace(s[b..])
  }

  /** What `trim` takes off both ends is white space; what it keeps is a slice of the input. */
  lemma {:induction false} TrimSlice(s: string)
    ensures SpaceAround(s, Trim(s))
    decreases |s|
  {
    if s != [] && IsSpace(s[0]) {
      TrimSlice(s[1..]);
      SpaceAroundFront(s, Trim(s));
    } else if s != [] && IsSpace(s[|s| - 1]) {
      TrimSlice(s[..|s| - 1]);
      SpaceAroundBack(s, Trim(s));
    } else {
      assert Trim(s) == s[0..|s|] && s[..0] == [] && s[|s|..] == [];
    }
  }

  lemma SpaceAroundFront(s: string, r: string)
    requires s != [] && IsSpace(s[0]) && SpaceAround(s[1..], r)
    ensures SpaceAround(s, r)
  {
    var a, b :| 0 <= a <= b <= |s| - 1 && r == s[1..][a..b] && AllSpace(s[1..][..a]) && AllSpace(s[1..][b..]);
    ShiftSlices(s, a, b);
    AllSpaceConcat(s[..1], s[1..][..a]);
    assert 0 <= a + 1 <= b + 1 <= |s| && r == s[a + 1..b + 1] && AllSpace(s[..a + 1]) && AllSpace(s[b + 1..]);
  }

  lemma ShiftSlices(s: string, a: nat, b: nat)
    requires a <= b < |s|
    ensures s[1..][a..b] == s[a + 1..b + 1] && s[1..][b..] == s[b + 1..]
    ensures s[..a + 1] == s[..1] + s[1..][..a]
  {
  }

  lemma SpaceAroundBack(s: string, r: string)
    requires s != [] && IsSpace(s[|s| - 1]) && SpaceAround(s[..|s| - 1], r)
    ensures SpaceAround(s, r)
  {
    var t := s[..|s| - 1];
    var a, b :| 0 <= a <= b <= |t| && r == t[a..b] && AllSpace(t[..a]) && AllSpace(t[b..]);
    DropSlices(s, a, b);
    AllSpaceConcat(t[b..], s[|s| - 1..]);
    assert 0 <= a <= b <= |s| && r == s[a..b] && AllSpace(s[..a]) && AllSpace(s[b..]);
  }

  lemma DropSlices(s: string, a: nat, b: nat)
    requires a <= b < |s|
    ensures s[..|s| - 1][a..b] == s[a..b] && s[..|s| - 1][..a] == s[..a]
    ensures s[b..] == s[..|s| - 1][b..] + s[|s| - 1..]
  {
  }

  lemma AllSpaceConcat(x: string, y: string)
    requires AllSpace(x) && AllSpace(y)
    ensures AllSpace(x + y)
  {
    forall i | 0 <= i < |x + y| ensures IsSpace((x + y)[i]) {
      if i >= |x| {
        assert (x + y)[i] == y[i - |x|];
      }
    }
  }

  /** A string trims to nothing exactly when it is all white space. */
  lemma TrimBlank(s: string)
    ensures Trim(s) == [] <==> AllSpace(s)
  {
    var r := Trim(s);
    TrimSlice(s);
    var a, b :| 0 <= a <= b <= |s| && r == s[a..b] && AllSpace(s[..a]) && AllSpace(s[b..]);
    if r == [] {
      assert |s[a..b]| == b - a == 0;
      AllSpaceJoin(s, a);
    } else {
      assert r[0] == s[a];
    }
  }

  lemma AllSpaceJoin(s: string, a: nat)
    requires a <= |s| && AllSpace(s[..a]) && AllSpace(s[a..])
    ensures AllSpace(s)
  {
    forall i | 0 <= i < |s| ensures IsSpace(s[i]) {
      if i < a {
        assert s[..a][i] == s[i];
      } else {
        assert s[a..][i - a] == s[i];
      }
    }
  }

  function LowerChar(c: char): char {
    if 'A' <= c <= 'Z' then (c as int + 32) as char else c
  }

  /** `toLowerCase`, on the ASCII letters. */
  function Lower(s: string): (r: string)
    ensures |r| == |s|
    ensures forall i :: 0 <= i < |s| ==> r[i] == LowerChar(s[i])
  {
    if s == [] then [] else [LowerChar(s[0])] + Lower(s[1..])
  }

  /** Lower-casing twice is lower-casing once, and leaves no upper-case ASCII letter. */
  lemma LowerIdempotent(s: string)
    ensures Lower(Lower(s)) == Lower(s)
    ensures forall i :: 0 <= i < |s| ==> !('A' <= Lower(s)[i] <= 'Z')
  {
    var l := Lower(s);
    forall i | 0 <= i < |s| ensures Lower(l)[i] == l[i] && !('A' <= l[i] <= 'Z') {
      LowerCharTwice(s[i]);
    }
  }

  lemma LowerCharTwice(c: char)
    ensures LowerChar(LowerChar(c)) == LowerChar(c)
    ensures !('A' <= LowerChar(c) <= 'Z')
  {
  }

  /** Lower-casing keeps white space where it is, so it commutes with trimming. */
  lemma {:induction false} LowerTrimCommute(s: string)
    ensures Trim(Lower(s)) == Lower(Trim(s))
    decreases |s|
  {
    var l := Lower(s);
    LowerKeepsSpace(s);
    if s != [] && IsSpace(s[0]) {
      assert l[1..] == Lower(s[1..]);
      LowerTrimCommute(s[1..]);
    } else if s != [] && IsSpace(s[|s| - 1]) {
      assert l[..|s| - 1] == Lower(s[..|s| - 1]);
      LowerTrimCommute(s[..|s| - 1]);
    } else {
      TrimKeepsTrimmed(l);
    }
  }

  lemma LowerKeepsSpace(s: string)
    ensures forall i :: 0 <= i < |s| ==> (IsSpace(Lower(s)[i]) <==> IsSpace(s[i]))
  {
  }
}
