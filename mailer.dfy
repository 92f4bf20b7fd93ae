/**
 * `escapeHtml` of the invitation mailer: the text placed in the HTML mail
 * body has its five markup characters replaced by entities.
 */
module Mailer {
  import opened Wrappers

  /** `s.replaceAll(c, rep)` for a one-character pattern. */
  function ReplaceAll(s: string, c: char, rep: string): (r: string)
    ensures c !in s ==> r == s
  {
    if s == [] then []
    else (if s[0] == c then rep else [s[0]]) + ReplaceAll(s[1..], c, rep)
  }

  lemma {:induction false} ReplaceAllAppend(a: string, b: string, c: char, rep: string)
    ensures ReplaceAll(a + b, c, rep) == ReplaceAll(a, c, rep) + ReplaceAll(b, c, rep)
  {
    if a == [] {
      assert a + b == b;
    } else {
      assert (a + b)[1..] == a[1..] + b;
      ReplaceAllAppend(a[1..], b, c, rep);
    }
  }

  /**
   * `String(str || "").replaceAll("&", "&amp;").replaceAll("<", "&lt;")
   * .replaceAll(">", "&gt;").replaceAll('"', "&quot;").replaceAll("'", "&#039;")`;
   * the argument is a string or missing (None).
   */
  function EscapeHtml(str: Option<string>): string {
    var s := if str.None? then "" else str.value;
    ReplaceAll(ReplaceAll(ReplaceAll(ReplaceAll(ReplaceAll(s, '&', "&amp;"), '<', "&lt;"), '>', "&gt;"), '"', "&quot;"), '\'', "&#039;")
  }

  predicate Special(c: char) {
    c == '&' || c == '<' || c == '>' || c == '"' || c == '\''
  }

  /** Each character on its own: the entity of a special one, itself otherwise. */
  function EscapeChar(c: char): string {
    if c == '&' then "&amp;"
    else if c == '<' then "&lt;"
    else if c == '>' then "&gt;"
    else if c == '"' then "&quot;"
    else if c == '\'' then "&#039;"
    else [c]
  }

  /** The escape defined character by character. */
  function Escape(s: string): string {
    if s == [] then [] else EscapeChar(s[0]) + Escape(s[1..])
  }

  function Chain(s: string): string {
    ReplaceAll(ReplaceAll(ReplaceAll(ReplaceAll(ReplaceAll(s, '&', "&amp;"), '<', "&lt;"), '>', "&gt;"), '"', "&quot;"), '\'', "&#039;")
  }

  lemma {:induction false} ChainAppend(a: string, b: string)
    ensures Chain(a + b) == Chain(a) + Chain(b)
  {
    ReplaceAllAppend(a, b, '&', "&amp;");
    var a1, b1 := ReplaceAll(a, '&', "&amp;"), ReplaceAll(b, '&', "&amp;");
    ReplaceAllAppend(a1, b1, '<', "&lt;");
    var a2, b2 := ReplaceAll(a1, '<', "&lt;"), ReplaceAll(b1, '<', "&lt;");
    ReplaceAllAppend(a2, b2, '>', "&gt;");
    var a3, b3 := ReplaceAll(a2, '>', "&gt;"), ReplaceAll(b2, '>', "&gt;");
    ReplaceAllAppend(a3, b3, '"', "&quot;");
    var a4, b4 := ReplaceAll(a3, '"', "&quot;"), ReplaceAll(b3, '"', "&quot;");
    ReplaceAllAppend(a4, b4, '\'', "&#039;");
  }

  lemma ReplaceOne(c: char, x: char, rep: string)
    ensures ReplaceAll([c], x, rep) == if c == x then rep else [c]
  {
    assert [c][1..] == [];
  }

  /** On one character the chain of replacements gives that character's entity. */
  lemma ChainChar(c: char)
    ensures Chain([c]) == EscapeChar(c)
  {
    ReplaceOne(c, '&', "&amp;");
    if c == '&' {
      assert '<' !in "&amp;" && '>' !in "&amp;" && '"' !in "&amp;" && '\'' !in "&amp;";
    } else {
      ReplaceOne(c, '<', "&lt;");
      if c == '<' {
        assert '>' !in "&lt;" && '"' !in "&lt;" && '\'' !in "&lt;";
      } else {
        ReplaceOne(c, '>', "&gt;");
        if c == '>' {
          assert '"' !in "&gt;" && '\'' !in "&gt;";
        } else {
          ReplaceOne(c, '"', "&quot;");
          if c == '"' {
            assert '\'' !in "&quot;";
          } else {
            ReplaceOne(c, '\'', "&#039;");
          }
        }
      }
    }
  }

  /**
   * Because `&` is replaced first, the chain never re-escapes the `&` of an
   * entity it inserted: it escapes each character independently.
   */
  lemma {:induction false} ChainIsPerCharacter(s: string)
    ensures Chain(s) == Escape(s)
  {
    if s != [] {
      assert s == [s[0]] + s[1..];
      ChainAppend([s[0]], s[1..]);
      ChainChar(s[0]);
      ChainIsPerCharacter(s[1..]);
    }
  }

  /** A missing or empty argument gives the empty string. */
  lemma EscapeMissing()
    ensures EscapeHtml(None) == "" && EscapeHtml(Some("")) == ""
  {
  }

  lemma {:induction false} EscapeAppend(a: string, b: string)
    ensures Escape(a + b) == Escape(a) + Escape(b)
  {
    if a == [] {
      assert a + b == b;
    } else {
      assert (a + b)[1..] == a[1..] + b;
      EscapeAppend(a[1..], b);
    }
  }

  /** The escaped text contains none of `<`, `>`, `"` and `'`. */
  lemma {:induction false} NoMarkupLeft(s: string)
    ensures forall k :: 0 <= k < |Escape(s)| ==> !(Escape(s)[k] in "<>\"'")
  {
    if s != [] {
      NoMarkupLeft(s[1..]);
      var e, rest := EscapeChar(s[0]), Escape(s[1..]);
      forall k | 0 <= k < |e + rest| ensures !((e + rest)[k] in "<>\"'") {
        if k < |e| {
          assert (e + rest)[k] == e[k];
        } else {
          assert (e + rest)[k] == rest[k - |e|];
        }
      }
    }
  }

  /**
   * The escaped text is at least as long as the input, exactly as long
   * when the input has no special character, and then equal to it.
   */
  lemma {:induction false} EscapeLength(s: string)
    ensures |Escape(s)| >= |s|
    ensures |Escape(s)| == |s| <==> forall k :: 0 <= k < |s| ==> !Special(s[k])
    ensures (forall k :: 0 <= k < |s| ==> !Special(s[k])) ==> Escape(s) == s
  {
    if s != [] {
      EscapeLength(s[1..]);
      assert forall k :: 1 <= k < |s| ==> s[k] == s[1..][k - 1];
      assert forall k :: 0 <= k < |s[1..]| ==> s[1..][k] == s[k + 1];
      assert Special(s[0]) ==> |EscapeChar(s[0])| >= 4;
      if forall k :: 0 <= k < |s| ==> !Special(s[k]) {
        assert s == [s[0]] + s[1..];
      }
    }
  }

  predicate StartsWith(t: string, e: string) {
    |e| <= |t| && t[..|e|] == e
  }

  /** Reads the entities `Escape` writes back as their characters. */
  function Unescape(t: string): string
    decreases |t|
  {
    if t == [] then []
    else if StartsWith(t, "&amp;") then "&" + Unescape(t[5..])
    else if StartsWith(t, "&lt;") then "<" + Unescape(t[4..])
    else if StartsWith(t, "&gt;") then ">" + Unescape(t[4..])
    else if StartsWith(t, "&quot;") then "\"" + Unescape(t[6..])
    else if StartsWith(t, "&#039;") then "'" + Unescape(t[6..])
    else [t[0]] + Unescape(t[1..])
  }

  /** An entity followed by more text starts with that entity, whose first two characters it shows. */
  lemma Prefixed(e: string, t: string)
    requires |e| >= 2
    ensures StartsWith(e + t, e) && (e + t)[|e|..] == t && (e + t)[1] == e[1] && (e + t)[0] == e[0]
  {
    assert (e + t)[..|e|] == e;
  }

  lemma UnescapeChar(c: char, t: string)
    ensures Unescape(EscapeChar(c) + t) == [c] + Unescape(t)
  {
    var e := EscapeChar(c);
    var u := e + t;
    if c == '&' {
      Prefixed(e, t);
    } else if c == '<' {
      Prefixed(e, t);
      assert !StartsWith(u, "&amp;") by { assert u[1] == 'l'; }
    } else if c == '>' {
      Prefixed(e, t);
      assert !StartsWith(u, "&amp;") && !StartsWith(u, "&lt;") by { assert u[1] == 'g'; }
    } else if c == '"' {
      Prefixed(e, t);
      assert !StartsWith(u, "&amp;") && !StartsWith(u, "&lt;") && !StartsWith(u, "&gt;") by { assert u[1] == 'q'; }
    } else if c == '\'' {
      Prefixed(e, t);
      assert !StartsWith(u, "&amp;") && !StartsWith(u, "&lt;") && !StartsWith(u, "&gt;") && !StartsWith(u, "&quot;") by { assert u[1] == '#'; }
    } else {
      assert u[0] == c && u[1..] == t;
      assert !StartsWith(u, "&amp;") && !StartsWith(u, "&lt;") && !StartsWith(u, "&gt;")
        && !StartsWith(u, "&quot;") && !StartsWith(u, "&#039;") by { assert u[0] != '&'; }
    }
  }

  /** Nothing is lost: the escaped text reads back as the original, every character in order. */
  lemma {:induction false} EscapeRoundTrip(s: string)
    ensures Unescape(Escape(s)) == s
  {
    if s != [] {
      UnescapeChar(s[0], Escape(s[1..]));
      EscapeRoundTrip(s[1..]);
    }
  }

  /** `escapeHtml` is the per-character escape, so all of the above hold of it. */
  lemma EscapeHtmlCorrect(s: string)
    ensures EscapeHtml(Some(s)) == Escape(s)
    ensures Unescape(EscapeHtml(Some(s))) == s
  {
    ChainIsPerCharacter(s);
    EscapeRoundTrip(s);
  }
}
