/** String helpers that stand for the JavaScript string methods the script calls
    (`includes`, `startsWith`, a global `replace`) and for the character-class
    runs its regular expression matches. Strings are sequences of characters. */
module Text {

  /** `p` is a prefix of `s` (JavaScript `s.startsWith(p)`). */
  predicate IsPrefix(p: string, s: string) {
    |p| <= |s| && s[..|p|] == p
  }

  /** `t` occurs in `s` starting at index `i`. */
  predicate OccursAt(s: string, t: string, i: int) {
    0 <= i && i + |t| <= |s| && s[i..i + |t|] == t
  }

  /** JavaScript `s.includes(t)`, computed by trying every start position. */
  function Includes(s: string, t: string): (r: bool)
    ensures r <==> exists i :: OccursAt(s, t, i)
    decreases |s|
  {
    if IsPrefix(t, s) then
      assert OccursAt(s, t, 0);
      true
    else if |s| == 0 then
      false
    else
      var rest := Includes(s[1..], t);
      if rest then
        var i :| OccursAt(s[1..], t, i);
        assert s[1..][i..i + |t|] == s[i + 1..i + 1 + |t|];
        assert OccursAt(s, t, i + 1);
        true
      else
        forall i | 0 < i && OccursAt(s, t, i) ensures OccursAt(s[1..], t, i - 1) {
          assert s[1..][i - 1..i - 1 + |t|] == s[i..i + |t|];
        }
        false
  }

  /** The first index at or after `i` whose character is in `stops`, or `|s|` when
      there is none: the end of the longest run of characters outside `stops`,
      which is what a greedy negated character class such as `[^;\n]*` consumes. */
  function ScanTo(s: string, i: nat, stops: set<char>): (k: nat)
    requires i <= |s|
    ensures i <= k <= |s|
    ensures forall j :: i <= j < k ==> s[j] !in stops
    ensures k < |s| ==> s[k] in stops
    decreases |s| - i
  {
    if i == |s| || s[i] in stops then i else ScanTo(s, i + 1, stops)
  }

  /** The two quote characters. */
  const Quotes: set<char> := {'\'', '"'}

  /** `s` with every single and double quote removed (`s.replace(/['"]/g, '')`). */
  function StripQuotes(s: string): (r: string)
    ensures |r| <= |s|
    ensures forall c :: c in r ==> c !in Quotes
    ensures forall c :: c !in Quotes ==> multiset(r)[c] == multiset(s)[c]
  {
    if s == [] then []
    else
      var rest := StripQuotes(s[1..]);
      assert s == [s[0]] + s[1..];
      if s[0] in Quotes then rest else [s[0]] + rest
  }

  /** A string without quotes is left as it is. */
  lemma {:induction false} StripQuotesKeepsQuoteFree(s: string)
    requires forall c :: c in s ==> c !in Quotes
    ensures StripQuotes(s) == s
  {
    if s != [] {
      assert s[0] in s;
      assert forall c :: c in s[1..] ==> c in s;
      StripQuotesKeepsQuoteFree(s[1..]);
    }
  }

  /** Stripping twice equals stripping once. */
  lemma StripQuotesIdempotent(s: string)
    ensures StripQuotes(StripQuotes(s)) == StripQuotes(s)
  {
    StripQuotesKeepsQuoteFree(StripQuotes(s));
  }

  /** Stripping works character by character, so it distributes over concatenation. */
  lemma {:induction false} StripQuotesConcat(a: string, b: string)
    ensures StripQuotes(a + b) == StripQuotes(a) + StripQuotes(b)
  {
    if a != [] {
      assert (a + b)[1..] == a[1..] + b;
      StripQuotesConcat(a[1..], b);
    } else {
      assert a + b == b;
    }
  }
}
