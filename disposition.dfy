/** The download filename taken from a Content-Disposition response header by
    `downloadMaterialAdvanced`. The script matches the regular expression
    filename[^;=\n]*=((['"]).*?\2|[^;\n]*) (leftmost match, case-sensitive,
    no flags) and then removes every quote character from group 1. This loosely
    follows the `filename` parameter of RFC 6266, section 4.1. */
module Disposition {
  import opened Wrappers
  import opened Text

  /** The characters `.` does not match without the `s` flag. */
  const LineTerminators: set<char> := {'\n', '\r', '\U{2028}', '\U{2029}'}

  /** What `[^;=\n]*` may not consume. */
  const NameStops: set<char> := {';', '=', '\n'}

  /** What `[^;\n]*` may not consume. */
  const ValueStops: set<char> := {';', '\n'}

  const Keyword := "filename"

  /** The pattern matches at position `p`: the keyword, then the longest run
      outside `[;=\n]`, then `=`. A shorter run cannot be followed by `=`, so
      only the longest run needs to be tried. */
  predicate MatchesAt(h: string, p: nat) {
    p + |Keyword| <= |h| && h[p..p + |Keyword|] == Keyword &&
    var q := ScanTo(h, p + |Keyword|, NameStops);
    q < |h| && h[q] == '='
  }

  /** Where group 1 starts for a match at `p`: just after the `=`. */
  function ValueStart(h: string, p: nat): (q: nat)
    requires MatchesAt(h, p)
    ensures p + |Keyword| < q <= |h| && h[q - 1] == '='
    ensures forall j :: p + |Keyword| <= j < q - 1 ==> h[j] !in NameStops
  {
    ScanTo(h, p + |Keyword|, NameStops) + 1
  }

  /** The leftmost match position at or after `from`. */
  function FirstMatch(h: string, from: nat): (r: Option<nat>)
    requires from <= |h|
    ensures r.Some? ==> from <= r.value <= |h| && MatchesAt(h, r.value)
    ensures r.Some? ==> forall p :: from <= p < r.value ==> !MatchesAt(h, p)
    ensures r.None? ==> forall p :: from <= p <= |h| ==> !MatchesAt(h, p)
    decreases |h| - from
  {
    if MatchesAt(h, from) then Some(from)
    else if from == |h| then None
    else FirstMatch(h, from + 1)
  }

  /** The first alternative `(['"]).*?\2` matches `h[q..k+1]`: an opening quote,
      no line terminator, and `k` is the first repetition of that quote. */
  predicate IsQuotedCapture(h: string, q: nat, k: nat) {
    q < k < |h| && h[q] in Quotes && h[k] == h[q] &&
    forall j :: q < j < k ==> h[j] != h[q] && h[j] !in LineTerminators
  }

  /** The second alternative `[^;\n]*` matches `h[q..e]`, greedily. */
  predicate IsBareCapture(h: string, q: nat, e: nat) {
    q <= e <= |h| && (forall j :: q <= j < e ==> h[j] !in ValueStops) &&
    (e < |h| ==> h[e] in ValueStops)
  }

  /** Group 1 of a match whose value starts at `q`: the quoted alternative when it
      matches, otherwise the bare one. */
  function CaptureAt(h: string, q: nat): (v: string)
    requires q <= |h|
    ensures forall k: nat :: IsQuotedCapture(h, q, k) ==> v == h[q..k + 1]
    ensures (forall k: nat :: !IsQuotedCapture(h, q, k)) ==>
              forall e: nat :: IsBareCapture(h, q, e) ==> v == h[q..e]
  {
    var e := ScanTo(h, q, ValueStops);
    assert IsBareCapture(h, q, e);
    if q < |h| && h[q] in Quotes then
      var k := ScanTo(h, q + 1, {h[q]} + LineTerminators);
      if k < |h| && h[k] == h[q] then
        assert IsQuotedCapture(h, q, k);
        QuotedCaptureUnique(h, q, k);
        h[q..k + 1]
      else
        assert forall k' :: !IsQuotedCapture(h, q, k') by {
          forall k' | q < k' < |h| && h[k'] == h[q]
            ensures exists j :: q < j < k' && (h[j] == h[q] || h[j] in LineTerminators)
          {
            assert q < k < k' && h[k] in LineTerminators;
          }
        }
        BareCaptureUnique(h, q, e);
        h[q..e]
    else
      BareCaptureUnique(h, q, e);
      h[q..e]
  }

  lemma QuotedCaptureUnique(h: string, q: nat, k: nat)
    requires IsQuotedCapture(h, q, k)
    ensures forall k' :: IsQuotedCapture(h, q, k') ==> k' == k
  {
  }

  lemma BareCaptureUnique(h: string, q: nat, e: nat)
    requires IsBareCapture(h, q, e)
    ensures forall e' :: IsBareCapture(h, q, e') ==> e' == e
  {
  }

  /** `p` is the leftmost position where the pattern matches. */
  predicate IsLeftmostMatch(h: string, p: nat) {
    p <= |h| && MatchesAt(h, p) && forall p' :: 0 <= p' < p ==> !MatchesAt(h, p')
  }

  /** Group 1 of the leftmost match, if the header matches at all. */
  function CapturedFilename(h: string): (r: Option<string>)
    ensures r.None? <==> forall p :: 0 <= p <= |h| ==> !MatchesAt(h, p)
    ensures forall p: nat :: IsLeftmostMatch(h, p) ==> r == Some(CaptureAt(h, ValueStart(h, p)))
  {
    match FirstMatch(h, 0)
    case None => None
    case Some(p) =>
      assert MatchesAt(h, p);
      Some(CaptureAt(h, ValueStart(h, p)))
  }

  /** The filename the advanced download saves under: the caller's default,
      unless the header is present and its captured value is non-empty, in which
      case the captured value with every quote character removed. */
  function DownloadFilename(header: Option<string>, fallback: string): (r: string)
    ensures header.None? ==> r == fallback
    ensures header.Some? && CapturedFilename(header.value).None? ==> r == fallback
    ensures header.Some? && CapturedFilename(header.value) == Some("") ==> r == fallback
    ensures forall v :: header.Some? && CapturedFilename(header.value) == Some(v) && v != "" ==>
              r == StripQuotes(v)
    ensures r != fallback ==> forall c :: c in r ==> c !in Quotes
  {
    match header
    case None => fallback
    case Some(h) =>
      if h == "" then fallback
      else match CapturedFilename(h)
        case Some(v) => if v != "" then StripQuotes(v) else fallback
        case None => fallback
  }

  /** A header naming the file in quotes yields exactly the name between them;
      with nothing between the quotes the capture is still non-empty, so the
      saved name is then empty rather than the default. */
  lemma QuotedFilename(name: string, fallback: string)
    requires forall c :: c in name ==> c !in Quotes && c !in LineTerminators
    ensures DownloadFilename(Some(Keyword + "=\"" + name + "\""), fallback) == name
  {
    var h := Keyword + "=\"" + name + "\"";
    assert h[..|Keyword|] == Keyword;
    assert h[|Keyword|] == '=';
    assert MatchesAt(h, 0);
    assert FirstMatch(h, 0) == Some(0);
    var q := |Keyword| + 1;
    assert ValueStart(h, 0) == q;
    assert forall j :: q < j < |h| - 1 ==> h[j] == name[j - q - 1];
    var k: nat := |h| - 1;
    assert IsQuotedCapture(h, q, k);
    var v := h[q..];
    assert CaptureAt(h, q) == h[q..k + 1] == v;
    assert CaptureAt(h, ValueStart(h, 0)) == v;
    assert v == "\"" + name + "\"";
    assert CapturedFilename(h) == Some(v);
    StripQuotesConcat("\"" + name, "\"");
    StripQuotesConcat("\"", name);
    StripQuotesKeepsQuoteFree(name);
  }

  /** A value that does not open with a quote and runs to the end of the header
      without a separator is captured whole. */
  lemma BareCaptureToEnd(h: string, q: nat)
    requires q < |h| && h[q] !in Quotes
    requires forall j :: q <= j < |h| ==> h[j] !in ValueStops
    ensures CaptureAt(h, q) == h[q..]
  {
  }

  /** The extended parameter `filename*` of RFC 6266, section 4.3, is matched as
      well: its value is captured bare, so the charset and the empty language tag
      stay in the name, and only their quotes are removed. */
  lemma ExtendedFilenameKeepsCharset(charset: string, name: string, fallback: string)
    requires charset != [] && charset[0] !in Quotes
    requires forall c :: c in charset ==> c !in Quotes && c !in ValueStops
    requires forall c :: c in name ==> c !in Quotes && c !in ValueStops
    ensures DownloadFilename(Some(Keyword + "*=" + charset + "''" + name), fallback) == charset + name
  {
    var h := Keyword + "*=" + charset + "''" + name;
    var v := charset + "''" + name;
    ExtendedCapture(h, charset, name);
    var a := charset + "''";
    assert StripQuotes("''") == [] by {
      assert "''"[1..] == "'";
      assert "'"[1..] == [];
    }
    StripQuotesConcat(charset, "''");
    StripQuotesKeepsQuoteFree(charset);
    assert StripQuotes(a) == charset;
    StripQuotesConcat(a, name);
    StripQuotesKeepsQuoteFree(name);
  }

  lemma ExtendedCapture(h: string, charset: string, name: string)
    requires h == Keyword + "*=" + charset + "''" + name
    requires charset != [] && charset[0] !in Quotes
    requires forall c :: c in charset ==> c !in ValueStops
    requires forall c :: c in name ==> c !in ValueStops
    ensures CapturedFilename(h) == Some(charset + "''" + name)
  {
    var v := charset + "''" + name;
    var q := |Keyword| + 2;
    assert h == Keyword + "*=" + v;
    assert h[..|Keyword|] == Keyword;
    assert h[|Keyword|] == '*' && h[|Keyword| + 1] == '=';
    assert ScanTo(h, |Keyword|, NameStops) == |Keyword| + 1;
    assert MatchesAt(h, 0);
    assert FirstMatch(h, 0) == Some(0);
    assert ValueStart(h, 0) == q;
    assert h[q..] == v;
    forall j | q <= j < |h| ensures h[j] !in ValueStops {
      assert h[j] == v[j - q];
      var i := j - q;
      if i < |charset| {
        assert v[i] == charset[i];
      } else if i >= |charset| + 2 {
        assert v[i] == name[i - |charset| - 2];
      }
    }
    BareCaptureToEnd(h, q);
  }
}
