/**
  `formatAndEscapeText`: challenge text made safe for `innerHTML`. Four
  character escapes, then newlines to `<br>`, then runs of spaces to
  non-breaking spaces. The staged rewrite is proved equal to a single pass
  over the characters, and its output is proved free of raw markup.
*/
module TextFormat {
  import opened Strings
  import opened Wrappers

  /** `s.split(c).join(rep)`: every occurrence of `c` replaced by `rep`. */
  function ReplaceChar(s: string, c: char, rep: string): (r: string)
    ensures c !in s ==> r == s
    ensures c !in rep ==> c !in r
    ensures forall x :: x in r ==> x in s || x in rep
  {
    if |s| == 0 then ""
    else (if s[0] == c then rep else [s[0]]) + ReplaceChar(s[1..], c, rep)
  }

  lemma {:induction false} ReplaceAppend(a: string, b: string, c: char, rep: string)
    ensures ReplaceChar(a + b, c, rep) == ReplaceChar(a, c, rep) + ReplaceChar(b, c, rep)
  {
    if |a| == 0 {
      assert a + b == b;
    } else {
      assert (a + b)[1..] == a[1..] + b;
      ReplaceAppend(a[1..], b, c, rep);
    }
  }

  /** The five rewrites of lines 16-21, in source order. */
  function Escaped(s: string): string {
    var amp := ReplaceChar(s, '&', "&amp;");
    var lt := ReplaceChar(amp, '<', "&lt;");
    var gt := ReplaceChar(lt, '>', "&gt;");
    var quot := ReplaceChar(gt, '"', "&quot;");
    ReplaceChar(quot, '\n', "<br>")
  }

  /** The replacement text for one input character, as a one-pass escaper would emit it. */
  function EscapeChar(x: char): (r: string)
    ensures |r| >= 1
    ensures x !in "&<>\"\n" ==> r == [x]
  {
    if x == '&' then "&amp;"
    else if x == '<' then "&lt;"
    else if x == '>' then "&gt;"
    else if x == '"' then "&quot;"
    else if x == '\n' then "<br>"
    else [x]
  }

  /** The one-pass reference: each character replaced by its own escape, in order. */
  function EscapeAll(s: string): string {
    if |s| == 0 then "" else EscapeChar(s[0]) + EscapeAll(s[1..])
  }

  lemma EscapedAppend(a: string, b: string)
    ensures Escaped(a + b) == Escaped(a) + Escaped(b)
  {
    ReplaceAppend(a, b, '&', "&amp;");
    var a1, b1 := ReplaceChar(a, '&', "&amp;"), ReplaceChar(b, '&', "&amp;");
    ReplaceAppend(a1, b1, '<', "&lt;");
    var a2, b2 := ReplaceChar(a1, '<', "&lt;"), ReplaceChar(b1, '<', "&lt;");
    ReplaceAppend(a2, b2, '>', "&gt;");
    var a3, b3 := ReplaceChar(a2, '>', "&gt;"), ReplaceChar(b2, '>', "&gt;");
    ReplaceAppend(a3, b3, '"', "&quot;");
    var a4, b4 := ReplaceChar(a3, '"', "&quot;"), ReplaceChar(b3, '"', "&quot;");
    ReplaceAppend(a4, b4, '\n', "<br>");
  }

  lemma ReplaceSingle(x: char, c: char, rep: string)
    ensures ReplaceChar([x], c, rep) == if x == c then rep else [x]
  {
    assert ReplaceChar([x], c, rep) == (if x == c then rep else [x]) + ReplaceChar([], c, rep);
  }

  /** Entities produced by an earlier rewrite contain none of the later targets, so nothing is escaped twice. */
  lemma EscapedChar(x: char)
    ensures Escaped([x]) == EscapeChar(x)
  {
    ReplaceSingle(x, '&', "&amp;");
    if x == '&' {
      assert '<' !in "&amp;" && '>' !in "&amp;" && '"' !in "&amp;" && '\n' !in "&amp;";
    } else {
      ReplaceSingle(x, '<', "&lt;");
      if x == '<' {
        assert '>' !in "&lt;" && '"' !in "&lt;" && '\n' !in "&lt;";
      } else {
        ReplaceSingle(x, '>', "&gt;");
        if x == '>' {
          assert '"' !in "&gt;" && '\n' !in "&gt;";
        } else {
          ReplaceSingle(x, '"', "&quot;");
          if x == '"' {
            assert '\n' !in "&quot;";
          } else {
            ReplaceSingle(x, '\n', "<br>");
          }
        }
      }
    }
  }

  /** The staged rewrite equals the one-pass escaper on every input. */
  lemma {:induction false} EscapedIsOnePass(s: string)
    ensures Escaped(s) == EscapeAll(s)
  {
    if |s| > 0 {
      assert s == [s[0]] + s[1..];
      EscapedAppend([s[0]], s[1..]);
      EscapedChar(s[0]);
      EscapedIsOnePass(s[1..]);
    }
  }

  /** The number of spaces at the start of `s`. */
  function SpaceRun(s: string): (k: nat)
    ensures k <= |s|
    ensures forall i :: 0 <= i < k ==> s[i] == ' '
    ensures k < |s| ==> s[k] != ' '
  {
    if |s| > 0 && s[0] == ' ' then 1 + SpaceRun(s[1..]) else 0
  }

  /** `replace(/  +/g, …)`: a maximal run of k spaces becomes k-1 `&nbsp;` and one space. */
  function CollapseSpaces(s: string): (r: string)
    ensures |s| > 0 && s[0] != ' ' ==> |r| > 0 && r[0] == s[0]
    ensures s == "" <==> r == ""
    decreases |s|
  {
    if |s| == 0 then ""
    else if s[0] != ' ' then [s[0]] + CollapseSpaces(s[1..])
    else
      var k := SpaceRun(s);
      Repeat("&nbsp;", k - 1) + " " + CollapseSpaces(s[k..])
  }

  /** `formatAndEscapeText`: a missing or empty text renders as the empty string. */
  function FormatAndEscapeText(text: Option<string>): (r: string)
    ensures text == None || text == Some("") ==> r == ""
    ensures text.Some? && text.value != "" ==> r != ""
    ensures SafeHtml(r)
    ensures '"' !in r && '\n' !in r
    ensures NoDoubleSpace(r)
  {
    match text
    case None => ""
    case Some(t) =>
      if t == "" then ""
      else
        var e := Escaped(t);
        EscapedIsOnePass(t);
        EscapeAllSafe(t);
        CollapseKeepsSafe(e);
        CollapseNoDoubleSpace(e);
        SafeHtmlExcludes(CollapseSpaces(e));
        assert t == [t[0]] + t[1..];
        assert e != "";
        CollapseSpaces(e)
  }

  /** The pipeline is the one-pass escaper followed by the space rule. */
  lemma FormatIsOnePass(t: string)
    requires t != ""
    ensures FormatAndEscapeText(Some(t)) == CollapseSpaces(EscapeAll(t))
  {
    EscapedIsOnePass(t);
  }

  /**
    Text fit for `innerHTML` here: no `"`, no newline, and every `<` or `>`
    belongs to a `<br>` tag.
  */
  predicate SafeHtml(s: string)
    decreases |s|
  {
    if |s| == 0 then true
    else if |s| >= 4 && s[..4] == "<br>" then SafeHtml(s[4..])
    else s[0] !in "<>\"\n" && SafeHtml(s[1..])
  }

  lemma {:induction false} SafeAppend(a: string, b: string)
    requires SafeHtml(a) && SafeHtml(b)
    ensures SafeHtml(a + b)
    decreases |a|
  {
    if |a| == 0 {
      assert a + b == b;
    } else if |a| >= 4 && a[..4] == "<br>" {
      assert (a + b)[..4] == "<br>";
      assert (a + b)[4..] == a[4..] + b;
      SafeAppend(a[4..], b);
    } else {
      assert (a + b)[0] == a[0];
      assert (a + b)[1..] == a[1..] + b;
      SafeAppend(a[1..], b);
    }
  }

  lemma SafeWithout(s: string)
    requires forall x :: x in s ==> x !in "<>\"\n"
    ensures SafeHtml(s)
    decreases |s|
  {
    if |s| > 0 {
      assert s[0] in s;
      assert forall x :: x in s[1..] ==> x in s;
      SafeWithout(s[1..]);
    }
  }

  lemma {:induction false} EscapeAllSafe(s: string)
    ensures SafeHtml(EscapeAll(s))
  {
    if |s| > 0 {
      var x := s[0];
      if x == '\n' {
        assert "<br>"[..4] == "<br>" && "<br>"[4..] == "";
      } else {
        SafeWithout(EscapeChar(x));
      }
      EscapeAllSafe(s[1..]);
      SafeAppend(EscapeChar(x), EscapeAll(s[1..]));
    }
  }

  lemma {:induction false} RepeatChars(s: string, k: nat, c: char)
    requires c !in s
    ensures c !in Repeat(s, k)
  {
    if k > 0 {
      RepeatChars(s, k - 1, c);
    }
  }

  lemma {:induction false} CollapseKeepsSafe(s: string)
    requires SafeHtml(s)
    ensures SafeHtml(CollapseSpaces(s))
    decreases |s|
  {
    if |s| == 0 {
    } else if s[0] != ' ' {
      if |s| >= 4 && s[..4] == "<br>" {
        var b := "<br>";
        assert s == b + s[4..];
        CollapseOfNonSpace(b, s[4..]);
        CollapseKeepsSafe(s[4..]);
        SafeAppend(b, CollapseSpaces(s[4..]));
      } else {
        CollapseKeepsSafe(s[1..]);
        SafeWithout([s[0]]);
        SafeAppend([s[0]], CollapseSpaces(s[1..]));
      }
    } else {
      var k := SpaceRun(s);
      SafeDrop(s, k);
      CollapseKeepsSafe(s[k..]);
      SpacesSafe(k);
      SafeAppend(Repeat("&nbsp;", k - 1) + " ", CollapseSpaces(s[k..]));
    }
  }

  /** The replacement for a run of spaces is safe. */
  lemma SpacesSafe(k: nat)
    requires k > 0
    ensures SafeHtml(Repeat("&nbsp;", k - 1) + " ")
  {
    var nb := Repeat("&nbsp;", k - 1);
    assert "&nbsp;" == ['&', 'n', 'b', 's', 'p', ';'];
    assert "<>\"\n" == ['<', '>', '"', '\n'];
    forall c | c in "<>\"\n" ensures c !in nb + " " {
      RepeatChars("&nbsp;", k - 1, c);
    }
    SafeWithout(nb + " ");
  }

  /** A safe text stays safe after dropping a prefix of spaces. */
  lemma {:induction false} SafeDrop(s: string, k: nat)
    requires SafeHtml(s) && k <= |s|
    requires forall i :: 0 <= i < k ==> s[i] == ' '
    ensures SafeHtml(s[k..])
    decreases k
  {
    if k > 0 {
      assert s[0] == ' ';
      assert s[1..][k - 1..] == s[k..];
      SafeDrop(s[1..], k - 1);
    }
  }

  /** Non-space characters in front of a text are copied through. */
  lemma {:induction false} CollapseOfNonSpace(a: string, b: string)
    requires ' ' !in a
    ensures CollapseSpaces(a + b) == a + CollapseSpaces(b)
    decreases |a|
  {
    if |a| == 0 {
      assert a + b == b;
    } else {
      assert a[0] in a;
      assert (a + b)[1..] == a[1..] + b;
      CollapseOfNonSpace(a[1..], b);
      assert a == [a[0]] + a[1..];
    }
  }

  lemma {:induction false} SafeHtmlExcludes(s: string)
    requires SafeHtml(s)
    ensures '"' !in s && '\n' !in s
    decreases |s|
  {
    if |s| == 0 {
    } else if |s| >= 4 && s[..4] == "<br>" {
      SafeHtmlExcludes(s[4..]);
      assert s == s[..4] + s[4..];
    } else {
      SafeHtmlExcludes(s[1..]);
      assert s == [s[0]] + s[1..];
    }
  }

  /** No two adjacent spaces. */
  predicate NoDoubleSpace(s: string) {
    |s| < 2 || ((s[0] != ' ' || s[1] != ' ') && NoDoubleSpace(s[1..]))
  }

  lemma {:induction false} NoDoubleAppend(a: string, b: string)
    requires NoDoubleSpace(a) && NoDoubleSpace(b)
    requires a == "" || b == "" || a[|a| - 1] != ' ' || b[0] != ' '
    ensures NoDoubleSpace(a + b)
    decreases |a|
  {
    if |a| == 0 {
      assert a + b == b;
    } else {
      assert (a + b)[1..] == a[1..] + b;
      NoDoubleAppend(a[1..], b);
    }
  }

  lemma {:induction false} NoDoubleWithout(s: string)
    requires ' ' !in s
    ensures NoDoubleSpace(s)
    decreases |s|
  {
    if |s| > 0 {
      assert forall x :: x in s[1..] ==> x in s;
      NoDoubleWithout(s[1..]);
    }
  }

  /** The space rule never leaves two spaces side by side. */
  lemma {:induction false} CollapseNoDoubleSpace(s: string)
    ensures NoDoubleSpace(CollapseSpaces(s))
    decreases |s|
  {
    if |s| == 0 {
    } else if s[0] != ' ' {
      CollapseNoDoubleSpace(s[1..]);
      NoDoubleAppend([s[0]], CollapseSpaces(s[1..]));
    } else {
      var k := SpaceRun(s);
      var nb := Repeat("&nbsp;", k - 1);
      RepeatChars("&nbsp;", k - 1, ' ');
      NoDoubleWithout(nb);
      NoDoubleAppend(nb, " ");
      CollapseNoDoubleSpace(s[k..]);
      NoDoubleAppend(nb + " ", CollapseSpaces(s[k..]));
    }
  }

  /**
    A run of `k >= 1` spaces followed by a non-space (or the end) becomes
    `k-1` non-breaking spaces and one ordinary space.
  */
  lemma SpaceRunRendered(k: nat, b: string)
    requires k >= 1 && (b == "" || b[0] != ' ')
    ensures CollapseSpaces(Repeat(" ", k) + b) == Repeat("&nbsp;", k - 1) + " " + CollapseSpaces(b)
  {
    var s := Repeat(" ", k) + b;
    RepeatSpaces(k);
    assert SpaceRun(s) == k by {
      SpaceRunOf(k, b);
    }
    assert s[k..] == b;
  }

  lemma {:induction false} RepeatSpaces(k: nat)
    ensures forall i :: 0 <= i < |Repeat(" ", k)| ==> Repeat(" ", k)[i] == ' '
  {
    if k > 0 {
      RepeatSpaces(k - 1);
      assert Repeat(" ", k) == " " + Repeat(" ", k - 1);
    }
  }

  lemma {:induction false} SpaceRunOf(k: nat, b: string)
    requires b == "" || b[0] != ' '
    ensures SpaceRun(Repeat(" ", k) + b) == k
  {
    if k > 0 {
      var s := Repeat(" ", k) + b;
      assert s[1..] == Repeat(" ", k - 1) + b;
      SpaceRunOf(k - 1, b);
    } else {
      assert Repeat(" ", k) + b == b;
    }
  }
}
