/**
 * The string primitives the scripts rely on: `trim`, ASCII case mapping,
 * `indexOf`/`includes` and `startsWith`.  JavaScript strings are sequences of
 * characters here.
 */
module Text {
  import opened Wrappers

  /** The white space `String.prototype.trim` removes (the Unicode space separators other than U+00A0 are not modelled). */
  predicate IsSpace(c: char) {
    c == ' ' || c == '\t' || c == '\n' || c == '\r' || c == '\U{B}' || c == '\U{C}'
    || c == '\U{A0}' || c == '\U{FEFF}' || c == '\U{2028}' || c == '\U{2029}'
  }

  /** Every character of `s` is white space (so `s.trim()` is empty). */
  predicate Blank(s: string) {
    forall i :: 0 <= i < |s| ==> IsSpace(s[i])
  }

  function TrimStart(s: string): (r: string)
    ensures |r| <= |s| && r == s[|s| - |r|..]
    ensures Blank(s[..|s| - |r|])
    ensures r == [] || !IsSpace(r[0])
  {
    if s != [] && IsSpace(s[0]) then
      var r := TrimStart(s[1..]);
      var dropped := s[..|s| - |r|];
      assert s[1..][|s| - 1 - |r|..] == s[|s| - |r|..];
      assert Blank(dropped) by {
        forall i | 0 < i < |dropped| ensures IsSpace(dropped[i]) {
          assert dropped[i] == s[1..][..|s| - 1 - |r|][i - 1];
        }
      }
      r
    else s
  }

  function TrimEnd(s: string): (r: string)
    ensures |r| <= |s| && r == s[..|r|]
    ensures Blank(s[|r|..])
    ensures r == [] || !IsSpace(r[|r| - 1])
  {
    if s != [] && IsSpace(s[|s| - 1]) then
      var r := TrimEnd(s[..|s| - 1]);
      var dropped := s[|r|..];
      assert s[..|s| - 1][..|r|] == s[..|r|];
      assert Blank(dropped) by {
        forall i | 0 <= i < |dropped| - 1 ensures IsSpace(dropped[i]) {
          assert dropped[i] == s[..|s| - 1][|r|..][i];
        }
      }
      r
    else s
  }

  /** `s.trim()`: the slice of `s` between its leading and its trailing white space. */
  function Trim(s: string): (r: string)
    ensures |r| <= |s|
    ensures r == [] || (!IsSpace(r[0]) && !IsSpace(r[|r| - 1]))
    ensures r == [] <==> Blank(s)
    ensures s == [] || (!IsSpace(s[0]) && !IsSpace(s[|s| - 1])) ==> r == s
  {
    var t := TrimStart(s);
    var r := TrimEnd(t);
    assert r == [] ==> s == s[..|s| - |t|] + t[|r|..];
    assert r != [] ==> r[0] == t[0];
    assert !Blank(s) ==> r != [] by {
      if r == [] {
        assert Blank(s[..|s| - |t|]) && Blank(t[|r|..]);
        assert s == s[..|s| - |t|] + t;
      }
    }
    r
  }

  /** `toLowerCase` on one character, restricted to ASCII letters. */
  function LowerChar(c: char): (d: char)
    ensures !('A' <= d <= 'Z')
    ensures IsSpace(d) <==> IsSpace(c)
  {
    if 'A' <= c <= 'Z' then (c as int + 32) as char else c
  }

  /** `toUpperCase` on one character, restricted to ASCII letters. */
  function UpperChar(c: char): (d: char)
    ensures !('a' <= d <= 'z')
    ensures 'A' <= c <= 'Z' ==> d == c
  {
    if 'a' <= c <= 'z' then (c as int - 32) as char else c
  }

  /** `s.toLowerCase()`, character by character (see `LowerAt`). */
  function Lower(s: string): (r: string)
    ensures |r| == |s|
  {
    if s == [] then [] else [LowerChar(s[0])] + Lower(s[1..])
  }

  lemma {:induction false} LowerAt(s: string, i: int)
    requires 0 <= i < |s|
    ensures Lower(s)[i] == LowerChar(s[i])
    decreases |s|
  {
    if i > 0 {
      LowerAt(s[1..], i - 1);
    }
  }

  lemma LowerEach(s: string)
    ensures forall i :: 0 <= i < |s| ==> Lower(s)[i] == LowerChar(s[i])
  {
    forall i | 0 <= i < |s| ensures Lower(s)[i] == LowerChar(s[i]) {
      LowerAt(s, i);
    }
  }

  predicate StartsWith(s: string, p: string) {
    |p| <= |s| && s[..|p|] == p
  }

  /** `p` occurs in `s` starting at index `j`. */
  predicate OccursAt(s: string, p: string, j: int) {
    0 <= j && j + |p| <= |s| && s[j..j + |p|] == p
  }

  /** `s.indexOf(p)`: the first index at which `p` occurs in `s`, or None for -1 (see `IndexOfFirst`). */
  function IndexOf(s: string, p: string): (r: Option<nat>)
    ensures r.Some? ==> OccursAt(s, p, r.value)
    decreases |s|
  {
    if StartsWith(s, p) then Some(0)
    else if s == [] then None
    else
      var r := IndexOf(s[1..], p);
      if r.Some? then
        assert s[r.value + 1..r.value + 1 + |p|] == s[1..][r.value..r.value + |p|];
        Some(r.value + 1)
      else None
  }

  /** No occurrence comes before the one `indexOf` reports, and there is one whenever `p` occurs at all. */
  lemma {:induction false} IndexOfFirst(s: string, p: string, j: int)
    requires OccursAt(s, p, j)
    ensures IndexOf(s, p).Some? && IndexOf(s, p).value <= j
    decreases |s|
  {
    if !StartsWith(s, p) {
      assert j != 0;
      assert s[1..][j - 1..j - 1 + |p|] == s[j..j + |p|];
      IndexOfFirst(s[1..], p, j - 1);
    }
  }

  /** `includes` finds every occurrence. */
  lemma OccursThenContains(s: string, p: string, j: int)
    ensures OccursAt(s, p, j) ==> IndexOf(s, p).Some?
  {
    if OccursAt(s, p, j) {
      IndexOfFirst(s, p, j);
    }
  }

  /** `s.includes(q)`, which is `s.indexOf(q) !== -1`. */
  predicate Contains(s: string, q: string) {
    IndexOf(s, q).Some?
  }
}

/** Facts about the primitives that more than one script relies on. */
module TextFacts {
  import opened Text

  /** Trimming twice is trimming once. */
  lemma TrimIdempotent(s: string)
    ensures Trim(Trim(s)) == Trim(s)
  {
  }

  lemma {:induction false} TrimStartLower(s: string)
    ensures TrimStart(Lower(s)) == Lower(TrimStart(s))
    decreases |s|
  {
    if s != [] {
      var low := Lower(s);
      assert low[1..] == Lower(s[1..]);
      assert IsSpace(low[0]) <==> IsSpace(s[0]);
      if IsSpace(s[0]) {
        TrimStartLower(s[1..]);
        assert TrimStart(s) == TrimStart(s[1..]);
        assert TrimStart(low) == TrimStart(low[1..]);
      } else {
        assert TrimStart(s) == s && TrimStart(low) == low;
      }
    }
  }

  lemma {:induction false} TrimEndLower(s: string)
    ensures TrimEnd(Lower(s)) == Lower(TrimEnd(s))
    decreases |s|
  {
    if s != [] {
      var low := Lower(s);
      LowerEach(s);
      LowerEach(s[..|s| - 1]);
      assert low[..|s| - 1] == Lower(s[..|s| - 1]);
      assert IsSpace(low[|s| - 1]) <==> IsSpace(s[|s| - 1]);
      if IsSpace(s[|s| - 1]) {
        TrimEndLower(s[..|s| - 1]);
        assert TrimEnd(s) == TrimEnd(s[..|s| - 1]);
        assert TrimEnd(low) == TrimEnd(low[..|s| - 1]);
      } else {
        assert TrimEnd(s) == s && TrimEnd(low) == low;
      }
    }
  }

  /** Lower-casing twice is lower-casing once. */
  lemma LowerIdempotent(s: string)
    ensures Lower(Lower(s)) == Lower(s)
  {
    var once := Lower(s);
    var twice := Lower(once);
    LowerEach(s);
    LowerEach(once);
    assert forall i | 0 <= i < |s| :: twice[i] == LowerChar(once[i]) == once[i];
  }

  /** Lower-casing never adds or removes white space, so it commutes with `trim`. */
  lemma TrimLower(s: string)
    ensures Trim(Lower(s)) == Lower(Trim(s))
  {
    TrimStartLower(s);
    TrimEndLower(TrimStart(s));
  }

  /** Every string includes the empty string, so a `!q ||` guard in front of `includes(q)` changes nothing. */
  lemma ContainsEmpty(s: string)
    ensures Contains(s, "")
  {
    assert OccursAt(s, "", 0);
    IndexOfFirst(s, "", 0);
  }
}
