/**
 * The website's HTML escaping helper: each of the five characters that are
 * special in HTML text and attribute values is replaced by its entity, and
 * every other character is copied.
 */
module Script {

  /** The characters the escaping regular expression `[&<>"']` matches. */
  predicate IsSpecial(c: char) {
    c == '&' || c == '<' || c == '>' || c == '"' || c == '\''
  }

  /** The lookup map of the helper: the replacement of one character. */
  function EscapeChar(c: char): (r: string)
    ensures IsSpecial(c) ==> |r| > 1 && r[0] == '&'
    ensures !IsSpecial(c) ==> r == [c]
  {
    match c
    case '&' => "&amp;"
    case '<' => "&lt;"
    case '>' => "&gt;"
    case '"' => "&quot;"
    case '\'' => "&#039;"
    case _ => [c]
  }

  /** escapeHtml: the global replace, i.e. every character replaced by EscapeChar, left to right. */
  function EscapeHtml(text: string): (r: string)
    ensures |r| >= |text|
  {
    if text == [] then [] else EscapeChar(text[0]) + EscapeHtml(text[1..])
  }

  /** Escaping is a per-character map, so it distributes over concatenation. */
  lemma {:induction false} EscapeHtmlConcat(a: string, b: string)
    ensures EscapeHtml(a + b) == EscapeHtml(a) + EscapeHtml(b)
  {
    if a == [] {
      assert a + b == b;
    } else {
      assert (a + b)[0] == a[0] && (a + b)[1..] == a[1..] + b;
      EscapeHtmlConcat(a[1..], b);
    }
  }

  /** The escaped text holds no '<', '>', '"' or '\'' character. */
  lemma {:induction false} EscapeHtmlRemovesMarkup(text: string)
    ensures forall i :: 0 <= i < |EscapeHtml(text)| ==>
      EscapeHtml(text)[i] !in {'<', '>', '"', '\''}
  {
    if text != [] {
      EscapeHtmlRemovesMarkup(text[1..]);
      var head, tail := EscapeChar(text[0]), EscapeHtml(text[1..]);
      forall i | 0 <= i < |head + tail| ensures (head + tail)[i] !in {'<', '>', '"', '\''} {
        if i >= |head| {
          assert (head + tail)[i] == tail[i - |head|];
        }
      }
    }
  }

  /** The escaped text is exactly as long as the input iff the input has none of the five special characters, and then equals it. */
  lemma {:induction false} EscapeHtmlLength(text: string)
    ensures |EscapeHtml(text)| == |text| <==> forall i :: 0 <= i < |text| ==> !IsSpecial(text[i])
    ensures (forall i :: 0 <= i < |text| ==> !IsSpecial(text[i])) ==> EscapeHtml(text) == text
  {
    if text != [] {
      EscapeHtmlLength(text[1..]);
      assert forall i :: 0 <= i < |text[1..]| ==> text[1..][i] == text[i + 1];
      if (forall i :: 0 <= i < |text| ==> !IsSpecial(text[i])) {
        assert text == [text[0]] + text[1..];
      }
    }
  }

  /**
   * Reads the escaped form back: each of the five entities becomes its
   * character and anything else is copied. It serves to state that escaping
   * loses nothing.
   */
  function UnescapeHtml(s: string): string {
    if s == [] then []
    else if "&amp;" <= s then "&" + UnescapeHtml(s[5..])
    else if "&lt;" <= s then "<" + UnescapeHtml(s[4..])
    else if "&gt;" <= s then ">" + UnescapeHtml(s[4..])
    else if "&quot;" <= s then "\"" + UnescapeHtml(s[6..])
    else if "&#039;" <= s then "'" + UnescapeHtml(s[6..])
    else [s[0]] + UnescapeHtml(s[1..])
  }

  lemma UnescapeEntity(c: char, rest: string)
    requires IsSpecial(c)
    ensures UnescapeHtml(EscapeChar(c) + rest) == [c] + UnescapeHtml(rest)
  {
    var e := EscapeChar(c) + rest;
    match c
    case '&' =>
      assert e[..5] == "&amp;" && e[5..] == rest;
    case '<' =>
      assert e[..4] == "&lt;" && e[4..] == rest && e[1] == 'l';
    case '>' =>
      assert e[..4] == "&gt;" && e[4..] == rest && e[1] == 'g';
    case '"' =>
      assert e[..6] == "&quot;" && e[6..] == rest && e[1] == 'q';
    case '\'' =>
      assert e[..6] == "&#039;" && e[6..] == rest && e[1] == '#';
  }

  /** Reading back one replacement gives back its character, whatever follows it. */
  lemma UnescapeEscapeChar(c: char, rest: string)
    ensures UnescapeHtml(EscapeChar(c) + rest) == [c] + UnescapeHtml(rest)
  {
    if IsSpecial(c) {
      UnescapeEntity(c, rest);
    } else {
      var e := EscapeChar(c) + rest;
      assert e[0] == c && e[1..] == rest;
    }
  }

  /**
   * Escaping is reversible: every '&' it emits begins one of its own entities
   * (none is escaped a second time), so reading the entities back gives the input.
   */
  lemma {:induction false} UnescapeEscapeHtml(text: string)
    ensures UnescapeHtml(EscapeHtml(text)) == text
  {
    if text != [] {
      UnescapeEscapeHtml(text[1..]);
      UnescapeEscapeChar(text[0], EscapeHtml(text[1..]));
      assert text == [text[0]] + text[1..];
    }
  }

  /** Escaping twice is not escaping once: an '&' becomes "&amp;" and then "&amp;amp;". */
  lemma EscapeHtmlNotIdempotent()
    ensures EscapeHtml("&") == "&amp;"
    ensures EscapeHtml(EscapeHtml("&")) == "&amp;amp;"
  {
    assert EscapeHtml("&") == EscapeChar('&') + EscapeHtml("");
    EscapeHtmlConcat("&", "amp;");
    EscapeHtmlLength("amp;");
  }
}
