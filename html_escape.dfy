/** `safe(text)` of the prescription download
    (frontend/src/pages/MyAppointments.jsx): the text placed into the
    generated HTML, with '<', '>' and line breaks rewritten. Beside it, the
    escaping that also rewrites '&', which makes the escaping reversible. */
module HtmlEscape {
  import opened JsText

  /** `text || "-"`. */
  function OrDash(text: string): (t: string)
    ensures t != []
  {
    if text == "" then "-" else text
  }

  /** `safe(text)` as written: three global replacements in turn. */
  function Safe(text: string): string
  {
    ReplaceChar(ReplaceChar(ReplaceChar(OrDash(text), '<', "&lt;"), '>', "&gt;"), '\n', "<br>")
  }

  /** What one input character becomes under `safe`. */
  function EscapeChar(c: char): string
  {
    if c == '<' then "&lt;" else if c == '>' then "&gt;" else if c == '\n' then "<br>" else [c]
  }

  /** Each character rewritten independently, left to right. */
  function EscapeEach(s: string): string
  {
    if s == [] then [] else EscapeChar(s[0]) + EscapeEach(s[1..])
  }

  function ThreePasses(s: string): string
  {
    ReplaceChar(ReplaceChar(ReplaceChar(s, '<', "&lt;"), '>', "&gt;"), '\n', "<br>")
  }

  /** The three passes do not interfere: none of them writes a character a
      later pass rewrites, so together they rewrite each character on its
      own. */
  lemma {:induction false} ThreePassesAreEscapeEach(s: string)
    ensures ThreePasses(s) == EscapeEach(s)
    decreases |s|
  {
    if s != [] {
      assert s == [s[0]] + s[1..];
      ThreePassesConcat([s[0]], s[1..]);
      ThreePassesChar(s[0]);
      ThreePassesAreEscapeEach(s[1..]);
    }
  }

  /** On one character the passes give `EscapeChar`: what the first pass
      writes holds nothing a later pass rewrites. */
  lemma ThreePassesChar(c: char)
    ensures ThreePasses([c]) == EscapeChar(c)
  {
    ReplaceCharOne(c, '<', "&lt;");
    if c == '<' {
      ReplaceCharAbsent("&lt;", '>', "&gt;");
      ReplaceCharAbsent("&lt;", '\n', "<br>");
    } else {
      ReplaceCharOne(c, '>', "&gt;");
      if c == '>' {
        ReplaceCharAbsent("&gt;", '\n', "<br>");
      } else {
        ReplaceCharOne(c, '\n', "<br>");
      }
    }
  }

  /** Every '<' of `r` opens a "<br>". */
  ghost predicate OpensBreaks(r: string) {
    forall i :: 0 <= i < |r| && r[i] == '<' ==> i + 4 <= |r| && r[i..i + 4] == "<br>"
  }

  /** Every '>' of `r` closes a "<br>". */
  ghost predicate ClosesBreaks(r: string) {
    forall i :: 0 <= i < |r| && r[i] == '>' ==> 3 <= i && r[i - 3..i + 1] == "<br>"
  }

  /** Every '<' of `r` opens a "<br>" and every '>' closes one. */
  ghost predicate AnglesOnlyInBreaks(r: string) {
    OpensBreaks(r) && ClosesBreaks(r)
  }

  /** A slice inside the left part of a concatenation. */
  lemma SliceLeft(a: string, b: string, lo: nat, hi: nat)
    requires lo <= hi <= |a|
    ensures (a + b)[lo..hi] == a[lo..hi]
  {
  }

  /** A slice inside the right part of a concatenation. */
  lemma SliceRight(a: string, b: string, lo: nat, hi: nat)
    requires |a| <= lo <= hi <= |a| + |b|
    ensures (a + b)[lo..hi] == b[lo - |a|..hi - |a|]
  {
  }

  lemma OpensConcat(a: string, b: string)
    requires OpensBreaks(a) && OpensBreaks(b)
    ensures OpensBreaks(a + b)
  {
    var r := a + b;
    forall i | 0 <= i < |r| && r[i] == '<' ensures i + 4 <= |r| && r[i..i + 4] == "<br>" {
      if i < |a| {
        assert a[i] == '<';
        SliceLeft(a, b, i, i + 4);
      } else {
        assert b[i - |a|] == '<';
        SliceRight(a, b, i, i + 4);
      }
    }
  }

  lemma ClosesConcat(a: string, b: string)
    requires ClosesBreaks(a) && ClosesBreaks(b)
    ensures ClosesBreaks(a + b)
  {
    var r := a + b;
    forall i | 0 <= i < |r| && r[i] == '>' ensures 3 <= i && r[i - 3..i + 1] == "<br>" {
      if i < |a| {
        assert a[i] == '>';
        SliceLeft(a, b, i - 3, i + 1);
      } else {
        assert b[i - |a|] == '>';
        SliceRight(a, b, i - 3, i + 1);
      }
    }
  }

  lemma AnglesConcat(a: string, b: string)
    requires AnglesOnlyInBreaks(a) && AnglesOnlyInBreaks(b)
    ensures AnglesOnlyInBreaks(a + b)
  {
    OpensConcat(a, b);
    ClosesConcat(a, b);
  }

  lemma {:induction false} EscapeEachAngles(s: string)
    ensures AnglesOnlyInBreaks(EscapeEach(s))
    decreases |s|
  {
    if s != [] {
      var e := EscapeChar(s[0]);
      assert AnglesOnlyInBreaks(e) by {
        if s[0] == '\n' {
          assert e == "<br>";
          assert e[0..4] == "<br>";
        }
      }
      EscapeEachAngles(s[1..]);
      AnglesConcat(e, EscapeEach(s[1..]));
    }
  }

  /** `safe` writes "-" for a missing text, rewrites each character on its
      own, and leaves no '<' or '>' in its output except inside the "<br>"
      written for a line break. */
  lemma SafeOutput(text: string)
    ensures Safe("") == "-"
    ensures Safe(text) == EscapeEach(OrDash(text))
    ensures AnglesOnlyInBreaks(Safe(text))
  {
    ThreePassesAreEscapeEach("");
    ThreePassesAreEscapeEach("-");
    assert EscapeEach("-") == "-" by {
      assert "-"[1..] == [];
    }
    ThreePassesAreEscapeEach(OrDash(text));
    EscapeEachAngles(OrDash(text));
  }

  /** `safe` leaves '&' as it is, so a text that already spells an entity
      comes out the same as the character it names: "<" and "&lt;" give the
      same markup and render alike. */
  lemma SafeConflatesEntity()
    ensures Safe("<") == Safe("&lt;") == "&lt;"
  {
    SafeOfAngle();
    SafeKeepsPlain("&lt;");
  }

  /** `safe("<")` is "&lt;". */
  lemma SafeOfAngle()
    ensures Safe("<") == "&lt;"
  {
    ThreePassesChar('<');
    assert "<" == ['<'];
  }

  /** A non-empty text without '<', '>' or line feeds passes `safe`
      unchanged. */
  lemma SafeKeepsPlain(text: string)
    requires text != [] && '<' !in text && '>' !in text && '\n' !in text
    ensures Safe(text) == text
  {
    ReplaceCharAbsent(text, '<', "&lt;");
    ReplaceCharAbsent(text, '>', "&gt;");
    ReplaceCharAbsent(text, '\n', "<br>");
  }

  /** The escaping `safe` evidently intends: '&' rewritten as well. */
  function EscapeHtmlChar(c: char): string
  {
    if c == '&' then "&amp;" else EscapeChar(c)
  }

  function EscapeHtml(s: string): string
  {
    if s == [] then [] else EscapeHtmlChar(s[0]) + EscapeHtml(s[1..])
  }

  /** `safe` with `.replace(/&/g, "&amp;")` as its first pass. */
  function SafeEscaped(text: string): string
  {
    ThreePasses(ReplaceChar(OrDash(text), '&', "&amp;"))
  }

  /** Reads markup written by `SafeEscaped` back into text. */
  function Unescape(r: string): string
    decreases |r|
  {
    if r == [] then []
    else if |r| >= 5 && r[..5] == "&amp;" then "&" + Unescape(r[5..])
    else if |r| >= 4 && r[..4] == "&lt;" then "<" + Unescape(r[4..])
    else if |r| >= 4 && r[..4] == "&gt;" then ">" + Unescape(r[4..])
    else if |r| >= 4 && r[..4] == "<br>" then "\n" + Unescape(r[4..])
    else [r[0]] + Unescape(r[1..])
  }

  lemma UnescapeStep(c: char, rest: string)
    ensures Unescape(EscapeHtmlChar(c) + rest) == [c] + Unescape(rest)
  {
    if c == '&' {
      UnescapeEntity("&amp;", '&', rest);
    } else if c == '<' {
      UnescapeEntity("&lt;", '<', rest);
    } else if c == '>' {
      UnescapeEntity("&gt;", '>', rest);
    } else if c == '\n' {
      UnescapeEntity("<br>", '\n', rest);
    } else {
      var r := [c] + rest;
      assert r[0] == c && r[1..] == rest;
      assert !(|r| >= 4 && r[..4] in {"&lt;", "&gt;", "<br>"}) by {
        if |r| >= 4 { assert r[..4][0] == c; }
      }
      assert !(|r| >= 5 && r[..5] == "&amp;") by {
        if |r| >= 5 { assert r[..5][0] == c; }
      }
    }
  }

  /** Each entity `SafeEscaped` writes is read back as its character. */
  lemma UnescapeEntity(e: string, c: char, rest: string)
    requires (e, c) in {("&amp;", '&'), ("&lt;", '<'), ("&gt;", '>'), ("<br>", '\n')}
    ensures Unescape(e + rest) == [c] + Unescape(rest)
  {
    var r := e + rest;
    assert r[..|e|] == e && r[|e|..] == rest;
    if e != "&amp;" {
      assert !(|r| >= 5 && r[..5] == "&amp;") by {
        if |r| >= 5 { assert r[..5][1] == e[1]; }
      }
    }
    if e == "&gt;" {
      assert r[..4] != "&lt;" by { assert r[..4][1] == 'g'; }
    }
  }

  /** The '&'-aware passes also rewrite each character on its own. */
  lemma {:induction false} SafeEscapedIsEscapeHtml(s: string)
    ensures ThreePasses(ReplaceChar(s, '&', "&amp;")) == EscapeHtml(s)
    decreases |s|
  {
    if s != [] {
      var c, rest := s[0], s[1..];
      var a := if c == '&' then "&amp;" else [c];
      assert ReplaceChar(s, '&', "&amp;") == a + ReplaceChar(rest, '&', "&amp;");
      ThreePassesConcat(a, ReplaceChar(rest, '&', "&amp;"));
      assert ThreePasses(a) == EscapeHtmlChar(c) by {
        ThreePassesAreEscapeEach(a);
        if c == '&' {
          EscapeEachAmp();
        } else {
          assert a[1..] == [];
        }
      }
      SafeEscapedIsEscapeHtml(rest);
    }
  }

  lemma EscapeEachAmp()
    ensures EscapeEach("&amp;") == "&amp;"
  {
    var s := "&amp;";
    assert s[1..] == "amp;" && s[1..][1..] == "mp;" && s[1..][1..][1..] == "p;";
    assert "p;"[1..] == ";" && ";"[1..] == [];
  }

  lemma ThreePassesConcat(a: string, b: string)
    ensures ThreePasses(a + b) == ThreePasses(a) + ThreePasses(b)
  {
    ReplaceCharConcat(a, b, '<', "&lt;");
    ReplaceCharConcat(ReplaceChar(a, '<', "&lt;"), ReplaceChar(b, '<', "&lt;"), '>', "&gt;");
    ReplaceCharConcat(ReplaceChar(ReplaceChar(a, '<', "&lt;"), '>', "&gt;"),
                      ReplaceChar(ReplaceChar(b, '<', "&lt;"), '>', "&gt;"), '\n', "<br>");
  }

  lemma {:induction false} UnescapeEscapeHtml(s: string)
    ensures Unescape(EscapeHtml(s)) == s
    decreases |s|
  {
    if s != [] {
      UnescapeStep(s[0], EscapeHtml(s[1..]));
      UnescapeEscapeHtml(s[1..]);
    }
  }

  /** With '&' escaped, the markup determines the text: reading it back
      gives the text (or "-" for a missing one), so two different non-empty
      texts never render alike. */
  lemma SafeEscapedRoundTrip(text: string)
    ensures Unescape(SafeEscaped(text)) == OrDash(text)
  {
    SafeEscapedIsEscapeHtml(OrDash(text));
    UnescapeEscapeHtml(OrDash(text));
  }
}
