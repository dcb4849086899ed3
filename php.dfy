/** The few PHP string semantics the parser command depends on. */
module Php {
  import opened Wrappers

  /** PHP truthiness of a string: "" and "0" are the false strings (also what empty() tests). */
  predicate Falsy(s: string) {
    s == "" || s == "0"
  }

  /** Truthiness of a nullable string: null, "" and "0" are false. */
  predicate Truthy(s: Option<string>) {
    s.Some? && !Falsy(s.value)
  }

  /** strpos($s, $sub) !== false: $sub occurs somewhere in $s. */
  predicate Contains(s: string, sub: string)
    decreases |s|
  {
    sub <= s || (s != [] && Contains(s[1..], sub))
  }

  /** Contains agrees with the positional reading of strpos: some offset starts an occurrence. */
  lemma {:induction false} ContainsAt(s: string, sub: string)
    ensures Contains(s, sub) <==> exists i :: 0 <= i <= |s| && sub <= s[i..]
    decreases |s|
  {
    if sub <= s {
      assert s[0..] == s;
    } else if s == [] {
    } else {
      ContainsAt(s[1..], sub);
      if Contains(s, sub) {
        var i :| 0 <= i <= |s[1..]| && sub <= s[1..][i..];
        assert s[1..][i..] == s[i + 1..];
      } else {
        forall i | 0 <= i <= |s|
          ensures !(sub <= s[i..])
        {
          if i > 0 {
            assert s[1..][i - 1..] == s[i..];
          } else {
            assert s[0..] == s;
          }
        }
      }
    }
  }

  /** The characters PHP's trim() removes by default: space, tab, newline, return, NUL, vertical tab. */
  predicate IsTrimChar(c: char) {
    c == ' ' || c == '\t' || c == '\n' || c == '\r' || c == '\0' || c == '\U{000B}'
  }

  /** A string with no trim character at either end. */
  predicate IsTrimmed(s: string) {
    s == [] || (!IsTrimChar(s[0]) && !IsTrimChar(s[|s| - 1]))
  }

  /** Every character of s is a trim character. */
  predicate AllTrimChars(s: string) {
    forall i :: 0 <= i < |s| ==> IsTrimChar(s[i])
  }

  /** ltrim(): drops the leading trim characters and nothing else. */
  function TrimLeft(s: string): (r: string)
    ensures |r| <= |s| && r == s[|s| - |r|..]
    ensures AllTrimChars(s[..|s| - |r|])
    ensures r == [] || !IsTrimChar(r[0])
  {
    if s != [] && IsTrimChar(s[0]) then TrimLeft(s[1..]) else s
  }

  /** rtrim(): drops the trailing trim characters and nothing else. */
  function TrimRight(s: string): (r: string)
    ensures |r| <= |s| && r == s[..|r|]
    ensures AllTrimChars(s[|r|..])
    ensures r == [] || !IsTrimChar(r[|r| - 1])
  {
    if s != [] && IsTrimChar(s[|s| - 1]) then TrimRight(s[..|s| - 1]) else s
  }

  /** r is the slice of s at offset i, and what lies before and after it is trim characters only. */
  predicate TrimmedSliceAt(s: string, r: string, i: int) {
    && 0 <= i <= |s| - |r| && r == s[i..i + |r|]
    && AllTrimChars(s[..i]) && AllTrimChars(s[i + |r|..])
  }

  /** trim(): the longest middle slice of s with no trim character at either end. */
  function Trim(s: string): (r: string)
    ensures IsTrimmed(r)
    ensures exists i :: TrimmedSliceAt(s, r, i)
  {
    var l := TrimLeft(s);
    var r := TrimRight(l);
    TrimEnds(l, r);
    TrimSlice(s, l, r);
    r
  }

  /** A prefix of l that keeps l's first character and ends on a non-trim character has no trim character at either end. */
  lemma TrimEnds(l: string, r: string)
    requires l == [] || !IsTrimChar(l[0])
    requires |r| <= |l| && r == l[..|r|] && (r == [] || !IsTrimChar(r[|r| - 1]))
    ensures IsTrimmed(r)
  {
    if r != [] {
      assert r[0] == l[0];
    }
  }

  /**
   * r, a prefix of l, which is a suffix of s, sits in s between what ltrim() dropped
   * (all trim characters) and what rtrim() dropped from l (all trim characters).
   */
  lemma TrimSlice(s: string, l: string, r: string)
    requires |l| <= |s| && l == s[|s| - |l|..] && AllTrimChars(s[..|s| - |l|])
    requires |r| <= |l| && r == l[..|r|] && AllTrimChars(l[|r|..])
    ensures TrimmedSliceAt(s, r, |s| - |l|)
  {
    var i := |s| - |l|;
    assert r == s[i..i + |r|] by {
      assert forall k :: 0 <= k < |r| ==> r[k] == l[k] == s[i + k];
    }
    assert s[i + |r|..] == l[|r|..];
  }

  /** trim() leaves a string that has no trim character at either end as it is. */
  lemma TrimKeepsTrimmed(s: string)
    requires IsTrimmed(s)
    ensures Trim(s) == s
  {
    assert TrimLeft(s) == s;
  }
}
