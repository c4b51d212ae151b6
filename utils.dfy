/**
 * modules/utils.py: the alphabet random strings are drawn from, and `random_str`.
 * The random source is replaced by the indices `random.choice` would pick.
 */
module Utils {
  import Text

  /** `n` consecutive characters starting at `first`. */
  function CharRun(first: char, n: nat): (s: string)
    requires first as int + n <= 0xD800
    ensures |s| == n
    ensures forall k :: 0 <= k < n ==> s[k] as int == first as int + k
  {
    seq(n, k requires 0 <= k < n => (first as int + k) as char)
  }

  /** `string.ascii_letters` (lower case, then upper case) followed by `string.digits`. */
  const RANDOM_CHARSET: string := CharRun('a', 26) + CharRun('A', 26) + CharRun('0', 10)

  predicate IsAsciiLetter(c: char) {
    'a' <= c <= 'z' || 'A' <= c <= 'Z'
  }

  /** Characters with a meaning in XML markup or in a CSV record. */
  predicate IsMarkup(c: char) {
    c in {'<', '>', '&', '"', '\'', ',', '\r', '\n'}
  }

  /** The alphabet is the 52 ASCII letters and then the 10 digits, each exactly once. */
  lemma RandomCharsetContents()
    ensures |RANDOM_CHARSET| == 62
    ensures forall k :: 0 <= k < 52 ==> IsAsciiLetter(RANDOM_CHARSET[k])
    ensures forall k :: 52 <= k < 62 ==> Text.IsDigit(RANDOM_CHARSET[k])
    ensures forall c :: IsAsciiLetter(c) || Text.IsDigit(c) ==> c in RANDOM_CHARSET
    ensures forall i, j :: 0 <= i < j < |RANDOM_CHARSET| ==> RANDOM_CHARSET[i] != RANDOM_CHARSET[j]
  {
    var cs := RANDOM_CHARSET;
    forall k | 0 <= k < 62
      ensures cs[k] as int == if k < 26 then 'a' as int + k else if k < 52 then 'A' as int + k - 26 else '0' as int + k - 52
    {
    }
    forall c | IsAsciiLetter(c) || Text.IsDigit(c)
      ensures c in cs
    {
      var k := if 'a' <= c <= 'z' then c as int - 'a' as int
               else if 'A' <= c <= 'Z' then 26 + c as int - 'A' as int
               else 52 + c as int - '0' as int;
      assert cs[k] == c;
    }
  }

  /** Every character of the alphabet is ASCII and none of them is XML or CSV markup. */
  lemma RandomCharsetIsPlain(c: char)
    requires c in RANDOM_CHARSET
    ensures Text.IsAscii(c) && !IsMarkup(c)
  {
    RandomCharsetContents();
  }

  /** Indices that `random.choice(RANDOM_CHARSET)` can return. */
  predicate AreChoices(picks: seq<nat>) {
    forall k :: 0 <= k < |picks| ==> picks[k] < |RANDOM_CHARSET|
  }

  /**
   * `random_str(l)`: `l` characters, the k-th being the alphabet's `picks[k]`-th;
   * `range(l)` is empty when `l <= 0`, so the result is then "".
   */
  function RandomStr(l: int, picks: seq<nat>): (s: string)
    requires AreChoices(picks) && l <= |picks|
    ensures |s| == if l <= 0 then 0 else l
    ensures forall k :: 0 <= k < |s| ==> s[k] in RANDOM_CHARSET
    ensures forall k :: 0 <= k < |s| ==> s[k] == RANDOM_CHARSET[picks[k]]
  {
    if l <= 0 then "" else seq(l, k requires 0 <= k < l => RANDOM_CHARSET[picks[k]])
  }

  /** A random string is plain ASCII: its UTF-8 encoding has one byte per character. */
  lemma RandomStrEncoding(l: int, picks: seq<nat>)
    requires AreChoices(picks) && l <= |picks|
    ensures |Text.Utf8Encode(RandomStr(l, picks))| == |RandomStr(l, picks)|
    ensures forall k :: 0 <= k < |RandomStr(l, picks)| ==> !IsMarkup(RandomStr(l, picks)[k])
  {
    var s := RandomStr(l, picks);
    forall k | 0 <= k < |s|
      ensures Text.IsAscii(s[k]) && !IsMarkup(s[k])
    {
      RandomCharsetIsPlain(s[k]);
    }
    Text.AsciiEncoding(s);
  }
}
