/**
 * `esc`, the HTML escaper that messages.js, contacts.js, settings.js and todo.js
 * each define with the same body: five `replaceAll` passes, `&` first.
 */
module Html {
  /**
   * `s.replaceAll(c, rep)` for a one-character pattern: every occurrence of `c`
   * becomes `rep`, every other character is kept.
   */
  function ReplaceAll(s: string, c: char, rep: string): (r: string)
    ensures c !in s ==> r == s
  {
    if s == [] then [] else (if s[0] == c then rep else [s[0]]) + ReplaceAll(s[1..], c, rep)
  }

  /** `esc(s)` for a string argument: text free of the five special characters comes back as it is (see `EscapeIsSinglePass`). */
  function Escape(s: string): (r: string)
    ensures (forall i :: 0 <= i < |s| ==> !Special(s[i])) ==> r == s
  {
    ReplaceAll(ReplaceAll(ReplaceAll(ReplaceAll(ReplaceAll(s,
      '&', "&amp;"), '<', "&lt;"), '>', "&gt;"), '"', "&quot;"), '\'', "&#039;")
  }

  /** The entity `esc` gives one character: an independent, single-pass definition. */
  function EscapeChar(c: char): string {
    match c
    case '&' => "&amp;"
    case '<' => "&lt;"
    case '>' => "&gt;"
    case '"' => "&quot;"
    case '\'' => "&#039;"
    case _ => [c]
  }

  /** Special characters: the ones `esc` replaces. */
  predicate Special(c: char) {
    c == '&' || c == '<' || c == '>' || c == '"' || c == '\''
  }

  /** Escaping character by character, each character on its own. */
  function EscapeEach(s: string): string {
    if s == [] then [] else EscapeChar(s[0]) + EscapeEach(s[1..])
  }

  lemma {:induction false} ReplaceAllAppend(s: string, t: string, c: char, rep: string)
    ensures ReplaceAll(s + t, c, rep) == ReplaceAll(s, c, rep) + ReplaceAll(t, c, rep)
    decreases |s|
  {
    if s == [] {
      assert s + t == t;
    } else {
      assert (s + t)[0] == s[0] && (s + t)[1..] == s[1..] + t;
      ReplaceAllAppend(s[1..], t, c, rep);
    }
  }

  lemma ReplaceAllOne(x: char, c: char, rep: string)
    ensures ReplaceAll([x], c, rep) == if x == c then rep else [x]
  {
    assert [x][1..] == [];
  }

  /** The five passes turn a single character into its entity. */
  lemma EscapeOne(x: char)
    ensures Escape([x]) == EscapeChar(x)
  {
    var a := ReplaceAll([x], '&', "&amp;");
    ReplaceAllOne(x, '&', "&amp;");
    if x == '&' {
      assert a == "&amp;" && '<' !in a && '>' !in a && '"' !in a && '\'' !in a;
    } else {
      var b := ReplaceAll(a, '<', "&lt;");
      ReplaceAllOne(x, '<', "&lt;");
      if x == '<' {
        assert b == "&lt;" && '>' !in b && '"' !in b && '\'' !in b;
      } else {
        var c := ReplaceAll(b, '>', "&gt;");
        ReplaceAllOne(x, '>', "&gt;");
        if x == '>' {
          assert c == "&gt;" && '"' !in c && '\'' !in c;
        } else {
          var d := ReplaceAll(c, '"', "&quot;");
          ReplaceAllOne(x, '"', "&quot;");
          if x == '"' {
            assert d == "&quot;" && '\'' !in d;
          } else {
            ReplaceAllOne(x, '\'', "&#039;");
          }
        }
      }
    }
  }

  lemma EscapeAppend(s: string, t: string)
    ensures Escape(s + t) == Escape(s) + Escape(t)
  {
    var a1, a2 := ReplaceAll(s, '&', "&amp;"), ReplaceAll(t, '&', "&amp;");
    ReplaceAllAppend(s, t, '&', "&amp;");
    var b1, b2 := ReplaceAll(a1, '<', "&lt;"), ReplaceAll(a2, '<', "&lt;");
    ReplaceAllAppend(a1, a2, '<', "&lt;");
    var c1, c2 := ReplaceAll(b1, '>', "&gt;"), ReplaceAll(b2, '>', "&gt;");
    ReplaceAllAppend(b1, b2, '>', "&gt;");
    var d1, d2 := ReplaceAll(c1, '"', "&quot;"), ReplaceAll(c2, '"', "&quot;");
    ReplaceAllAppend(c1, c2, '"', "&quot;");
    ReplaceAllAppend(d1, d2, '\'', "&#039;");
  }

  /**
   * Because `&` is replaced first, the entities introduced by the later passes
   * are never escaped again: the five passes act like one pass that replaces
   * each special character by its entity.
   */
  lemma {:induction false} EscapeIsSinglePass(s: string)
    ensures Escape(s) == EscapeEach(s)
    decreases |s|
  {
    if s != [] {
      assert s == [s[0]] + s[1..];
      EscapeAppend([s[0]], s[1..]);
      EscapeOne(s[0]);
      EscapeIsSinglePass(s[1..]);
    }
  }

  lemma EscapeCharLeavesNoMarkup(c: char)
    ensures '<' !in EscapeChar(c) && '>' !in EscapeChar(c) && '"' !in EscapeChar(c) && '\'' !in EscapeChar(c)
  {
    if !Special(c) {
      assert EscapeChar(c) == [c];
    }
  }

  lemma {:induction false} EachLeavesNoMarkup(s: string)
    ensures '<' !in EscapeEach(s) && '>' !in EscapeEach(s) && '"' !in EscapeEach(s) && '\'' !in EscapeEach(s)
    decreases |s|
  {
    if s != [] {
      EachLeavesNoMarkup(s[1..]);
      EscapeCharLeavesNoMarkup(s[0]);
      var e, rest := EscapeChar(s[0]), EscapeEach(s[1..]);
      assert EscapeEach(s) == e + rest;
    }
  }

  /** No raw `<`, `>`, `"` or `'` survives `esc`. */
  lemma EscapeLeavesNoMarkup(s: string)
    ensures '<' !in Escape(s) && '>' !in Escape(s) && '"' !in Escape(s) && '\'' !in Escape(s)
  {
    EscapeIsSinglePass(s);
    EachLeavesNoMarkup(s);
  }

  lemma {:induction false} EachAmpersandsStartEntities(s: string, i: int)
    requires 0 <= i < |EscapeEach(s)| && EscapeEach(s)[i] == '&'
    ensures i + 1 < |EscapeEach(s)| && EscapeEach(s)[i + 1] in "amplgtquot#"
    decreases |s|
  {
    var e := EscapeChar(s[0]);
    if i >= |e| {
      EachAmpersandsStartEntities(s[1..], i - |e|);
    } else {
      assert i == 0 && |e| > 1;
    }
  }

  /** Every `&` in the output starts an entity, even where the input held a bare `&`. */
  lemma EscapeAmpersandsStartEntities(s: string, i: int)
    requires 0 <= i < |Escape(s)| && Escape(s)[i] == '&'
    ensures i + 1 < |Escape(s)| && Escape(s)[i + 1] in "amplgtquot#"
  {
    EscapeIsSinglePass(s);
    EachAmpersandsStartEntities(s, i);
  }

  lemma {:induction false} EachPlainText(s: string)
    requires forall i :: 0 <= i < |s| ==> !Special(s[i])
    ensures EscapeEach(s) == s
    decreases |s|
  {
    if s != [] {
      EachPlainText(s[1..]);
    }
  }

  /** `esc` is the identity on text without special characters. */
  lemma EscapePlainText(s: string)
    requires forall i :: 0 <= i < |s| ==> !Special(s[i])
    ensures Escape(s) == s
  {
    EscapeIsSinglePass(s);
    EachPlainText(s);
  }

  lemma {:induction false} EachLength(s: string)
    ensures |EscapeEach(s)| >= |s|
    ensures |EscapeEach(s)| == |s| <==> forall i :: 0 <= i < |s| ==> !Special(s[i])
    decreases |s|
  {
    if s != [] {
      EachLength(s[1..]);
      if forall i :: 0 <= i < |s| - 1 ==> !Special(s[1..][i]) {
        assert forall i :: 1 <= i < |s| ==> !Special(s[i]) by {
          forall i | 1 <= i < |s| ensures !Special(s[i]) { assert s[i] == s[1..][i - 1]; }
        }
      } else {
        var j :| 0 <= j < |s| - 1 && Special(s[1..][j]);
        assert Special(s[j + 1]);
      }
    }
  }

  /**
   * `esc` lengthens exactly the text that holds a special character; in
   * particular it is not idempotent (`esc("&lt;")` is `&amp;lt;`, not `&lt;`).
   */
  lemma EscapeLength(s: string)
    ensures |Escape(s)| >= |s|
    ensures Escape(s) == s <==> forall i :: 0 <= i < |s| ==> !Special(s[i])
  {
    EscapeIsSinglePass(s);
    EachLength(s);
    if forall i :: 0 <= i < |s| ==> !Special(s[i]) {
      EachPlainText(s);
    }
  }
}
