/** String operations the analyzer relies on, written out over `seq<char>`:
    prefix, suffix and substring tests, ASCII lower-casing, splitting on a
    separator character, and decimal rendering of a natural number. */
module Text {

  /** `s.startsWith(prefix)` */
  predicate StartsWith(s: string, prefix: string) {
    |prefix| <= |s| && s[..|prefix|] == prefix
  }

  /** `s.endsWith(suffix)` */
  predicate EndsWith(s: string, suffix: string) {
    |suffix| <= |s| && s[|s| - |suffix|..] == suffix
  }

  /** A string starts with its first part and ends with its last part. */
  lemma AffixesOfConcat(a: string, b: string)
    ensures StartsWith(a + b, a) && EndsWith(a + b, b)
  {
    assert (a + b)[..|a|] == a;
    assert (a + b)[|a + b| - |b|..] == b;
  }

  /** `t` occurs in `s` starting at index `i`. */
  predicate OccursAt(s: string, t: string, i: nat) {
    i + |t| <= |s| && s[i..i + |t|] == t
  }

  /** `t` is a substring of `s`. */
  predicate Contains(s: string, t: string) {
    exists i :: 0 <= i <= |s| && OccursAt(s, t, i)
  }

  /** ASCII lower-casing of one character; every other character is unchanged. */
  function LowerChar(c: char): char {
    if 'A' <= c <= 'Z' then (c as int - 'A' as int + 'a' as int) as char else c
  }

  /** ASCII lower-casing of a string, character by character. */
  function Lower(s: string): (r: string)
    ensures |r| == |s|
    ensures forall i :: 0 <= i < |s| ==> r[i] == LowerChar(s[i])
  {
    seq(|s|, i requires 0 <= i < |s| => LowerChar(s[i]))
  }

  /** Number of occurrences of `c` in `s`. */
  function Count(s: string, c: char): nat {
    multiset(s)[c]
  }

  /** `s.split(sep)` for a one-character separator: the maximal runs between
      separators, so a string with n separators has n + 1 pieces, some of
      which may be empty. */
  function Split(s: string, sep: char): (parts: seq<string>)
    ensures |parts| == Count(s, sep) + 1
    ensures forall k :: 0 <= k < |parts| ==> sep !in parts[k]
  {
    if |s| == 0 then [""]
    else
      assert s == [s[0]] + s[1..];
      var rest := Split(s[1..], sep);
      if s[0] == sep then [""] + rest
      else [[s[0]] + rest[0]] + rest[1..]
  }

  /** `parts.join(sep)` */
  function Join(parts: seq<string>, sep: char): string
    requires |parts| >= 1
  {
    if |parts| == 1 then parts[0] else parts[0] + [sep] + Join(parts[1..], sep)
  }

  /** Joining a non-empty list after one more piece. */
  lemma JoinCons(p: string, parts: seq<string>, sep: char)
    requires |parts| >= 1
    ensures Join([p] + parts, sep) == p + [sep] + Join(parts, sep)
  {
    assert ([p] + parts)[1..] == parts;
  }

  /** Extending the first piece extends the joined string at the front. */
  lemma JoinExtendHead(c: char, parts: seq<string>, sep: char)
    requires |parts| >= 1
    ensures Join([[c] + parts[0]] + parts[1..], sep) == [c] + Join(parts, sep)
  {
    if |parts| > 1 {
      JoinCons([c] + parts[0], parts[1..], sep);
      JoinCons(parts[0], parts[1..], sep);
      assert parts == [parts[0]] + parts[1..];
    }
  }

  /** Splitting loses nothing: joining the pieces restores the string. */
  lemma {:induction false} SplitJoin(s: string, sep: char)
    ensures Join(Split(s, sep), sep) == s
  {
    if |s| > 0 {
      var rest := Split(s[1..], sep);
      SplitJoin(s[1..], sep);
      if s[0] == sep {
        JoinCons("", rest, sep);
      } else {
        JoinExtendHead(s[0], rest, sep);
      }
      assert s == [s[0]] + s[1..];
    }
  }

  /** The character for a decimal digit. */
  function DigitChar(d: nat): (c: char)
    requires d < 10
  {
    ('0' as int + d) as char
  }

  predicate IsDigit(c: char) {
    '0' <= c <= '9'
  }

  /** Base-10 rendering of `n` without leading zeros, as a template literal
      renders a non-negative integer. */
  function NatToDecimal(n: nat): (s: string)
    ensures |s| >= 1
    ensures forall i :: 0 <= i < |s| ==> IsDigit(s[i])
    ensures s[0] == '0' ==> n == 0
    decreases n
  {
    if n < 10 then [DigitChar(n)] else NatToDecimal(n / 10) + [DigitChar(n % 10)]
  }

  /** The value of a string of decimal digits. */
  function DecimalValue(s: string): nat
    requires forall i :: 0 <= i < |s| ==> IsDigit(s[i])
  {
    if |s| == 0 then 0
    else
      assert IsDigit(s[|s| - 1]);
      10 * DecimalValue(s[..|s| - 1]) + (s[|s| - 1] as int - '0' as int)
  }

  /** Reading back the rendered digits yields the number rendered. */
  lemma {:induction false} DecimalRoundTrip(n: nat)
    ensures DecimalValue(NatToDecimal(n)) == n
    decreases n
  {
    if n >= 10 {
      var s := NatToDecimal(n);
      DecimalRoundTrip(n / 10);
      assert s[..|s| - 1] == NatToDecimal(n / 10);
    }
  }
}
