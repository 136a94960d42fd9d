/** The download button's inline `onclick` attribute as the script writes it: the
    material id, title and file name are pasted between single quotes into the
    source text of a call to `downloadMaterial`. */
module Handler {
  import opened Text

  /** The characters that end the plain content of a single-quoted JavaScript
      string literal: the closing quote, the escape character and the line
      feed and carriage return (since ECMAScript 2019, U+2028 and U+2029 may
      appear inside a string literal). */
  const LiteralStops: set<char> := {'\'', '\\', '\n', '\r'}

  const CallOpen := "downloadMaterial('"
  const ArgumentSeparator := "', '"
  const CallClose := "')"

  /** The handler text of a card's enabled download button: the call opening,
      the id's literal, the separator whose last quote sits at
      `TitleQuoteIndex(id)`, then the title, unescaped, and the rest of the call. */
  function InlineDownloadHandler(id: string, title: string, fileName: string): (h: string)
    ensures TitleQuoteIndex(id) < |h| && h[TitleQuoteIndex(id)] == '\''
    ensures h[..TitleQuoteIndex(id) + 1] == CallOpen + id + ArgumentSeparator
    ensures h[|CallOpen| - 1] == '\''
    ensures h[TitleQuoteIndex(id) + 1..] == title + ArgumentSeparator + fileName + CallClose
  {
    var h := CallOpen + id + ArgumentSeparator + title + ArgumentSeparator + fileName + CallClose;
    assert h == (CallOpen + id + ArgumentSeparator) + (title + ArgumentSeparator + fileName + CallClose);
    h
  }

  /** Where the title's literal opens: the quote ending the first separator. */
  function TitleQuoteIndex(id: string): nat {
    |CallOpen| + |id| + |ArgumentSeparator| - 1
  }

  /** The plain content of the single-quoted literal whose opening quote is at
      `i`: the longest run after the quote without a stop character. */
  function SingleQuotedContent(s: string, i: nat): (c: string)
    requires i < |s| && s[i] == '\''
    ensures IsPrefix(c, s[i + 1..])
    ensures forall ch :: ch in c ==> ch !in LiteralStops
    ensures i + 1 + |c| < |s| ==> s[i + 1 + |c|] in LiteralStops
  {
    var k := ScanTo(s, i + 1, LiteralStops);
    assert forall ch :: ch in s[i + 1..k] ==> ch !in LiteralStops;
    s[i + 1..k]
  }

  /** An id without quote, backslash or line break (a database id, or "unknown")
      is exactly the first literal, which closes just before the separator, so
      the quote at `TitleQuoteIndex(id)` opens the title's literal. */
  lemma IdLiteralCloses(id: string, title: string, fileName: string)
    requires forall ch :: ch in id ==> ch !in LiteralStops
    ensures SingleQuotedContent(InlineDownloadHandler(id, title, fileName), |CallOpen| - 1) == id
  {
    var h := InlineDownloadHandler(id, title, fileName);
    var i := |CallOpen| - 1;
    var front := CallOpen + id + ArgumentSeparator;
    assert h[..TitleQuoteIndex(id) + 1] == front;
    forall j | i + 1 <= j < i + 1 + |id| ensures h[j] !in LiteralStops {
      assert h[j] == front[j] == id[j - i - 1];
    }
    assert h[i + 1 + |id|] == front[|CallOpen| + |id|] == '\'';
    assert ScanTo(h, i + 1, LiteralStops) == i + 1 + |id|;
    assert h[i + 1..i + 1 + |id|] == front[|CallOpen|..|CallOpen| + |id|] == id;
  }

  /** With an id as above, a title without quote, backslash or line break
      reaches the handler intact as the second literal. */
  lemma PlainTitleSurvives(id: string, title: string, fileName: string)
    requires forall ch :: ch in id ==> ch !in LiteralStops
    requires forall ch :: ch in title ==> ch !in LiteralStops
    ensures SingleQuotedContent(InlineDownloadHandler(id, title, fileName), |CallOpen| - 1) == id
    ensures SingleQuotedContent(InlineDownloadHandler(id, title, fileName), TitleQuoteIndex(id)) == title
  {
    IdLiteralCloses(id, title, fileName);
    var h := InlineDownloadHandler(id, title, fileName);
    var i := TitleQuoteIndex(id);
    var rest := title + ArgumentSeparator + fileName + CallClose;
    assert h[i + 1..] == rest;
    forall j | i + 1 <= j < i + 1 + |title| ensures h[j] !in LiteralStops {
      assert h[j] == rest[j - i - 1] == title[j - i - 1];
    }
    assert h[i + 1 + |title|] == rest[|title|] == '\'';
    assert ScanTo(h, i + 1, LiteralStops) == i + 1 + |title|;
    assert h[i + 1..i + 1 + |title|] == rest[..|title|] == title;
  }

  /** With an id as above, a title with an apostrophe ("Qo'llanma") and no
      escape or line break closes its literal at that apostrophe: the literal
      holds only the part of the title before it, and what follows is no longer
      inside the string, so the handler text is not the intended call. */
  lemma ApostropheCutsTitle(id: string, title: string, fileName: string)
    requires forall ch :: ch in id ==> ch !in LiteralStops
    requires '\'' in title
    requires '\\' !in title && '\n' !in title && '\r' !in title
    ensures SingleQuotedContent(InlineDownloadHandler(id, title, fileName), |CallOpen| - 1) == id
    ensures var h := InlineDownloadHandler(id, title, fileName);
            var c := SingleQuotedContent(h, TitleQuoteIndex(id));
            |c| < |title| && c == title[..|c|] &&
            title[|c|] == '\'' && h[TitleQuoteIndex(id) + 1 + |c|] == '\''
  {
    var h := InlineDownloadHandler(id, title, fileName);
    var i := TitleQuoteIndex(id);
    var c := SingleQuotedContent(h, i);
    var rest := title + ArgumentSeparator + fileName + CallClose;
    IdLiteralCloses(id, title, fileName);
    var a :| 0 <= a < |title| && title[a] == '\'';
    assert h[i + 1..] == rest;
    assert h[i + 1 + a] == rest[a] == '\'';
    assert |c| <= a;
    assert c == rest[..|c|] == title[..|c|];
    assert h[i + 1 + |c|] == rest[|c|] == title[|c|];
    assert title[|c|] in title;
  }
}
