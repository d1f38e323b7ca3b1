/** The three "suspicious file" regular expressions of the structural
    analyzer, each given by its match-at-a-position semantics (what the
    expression accepts when the engine tries it at index `i`), together with
    lemmas that read each one as a plain prefix/suffix/substring test.

    Regular-expression conventions used: without the `m` flag `$` matches only
    at the end of the input; without the `s` flag `.` matches any character
    except the line terminators; with `i` but without `u`, case folding never
    maps a non-ASCII character onto an ASCII one, so for the ASCII letters of
    `secret` it is exactly ASCII case-insensitivity. */
module Patterns {
  import opened Text

  /** The characters `.` does not match. */
  predicate IsLineTerminator(c: char) {
    c == '\n' || c == '\r' || c == '\U{2028}' || c == '\U{2029}'
  }

  /** No line terminator at or after index `from`: `.*` can reach the end. */
  predicate NoLineTerminatorFrom(p: string, from: nat) {
    forall k :: from <= k < |p| ==> !IsLineTerminator(p[k])
  }

  /** `/\.env(\..*)?$/` matches when tried at index `i`. */
  predicate EnvMatchAt(p: string, i: nat) {
    && OccursAt(p, ".env", i)
    && (i + 4 == |p| || (p[i + 4] == '.' && NoLineTerminatorFrom(p, i + 5)))
  }

  predicate EnvPattern(p: string) {
    exists i :: 0 <= i <= |p| && EnvMatchAt(p, i)
  }

  /** `/secrets?\./i` matches when tried at index `i`. */
  predicate SecretMatchAt(p: string, i: nat) {
    var low := Lower(p);
    OccursAt(low, "secret", i) && (OccursAt(low, ".", i + 6) || OccursAt(low, "s.", i + 6))
  }

  predicate SecretPattern(p: string) {
    exists i :: 0 <= i <= |p| && SecretMatchAt(p, i)
  }

  /** `/config(\.js|\.ts)?$/` matches when tried at index `i`. */
  predicate ConfigMatchAt(p: string, i: nat) {
    OccursAt(p, "config", i) && (p[i + 6..] == "" || p[i + 6..] == ".js" || p[i + 6..] == ".ts")
  }

  predicate ConfigPattern(p: string) {
    exists i :: 0 <= i <= |p| && ConfigMatchAt(p, i)
  }

  /** The disjunction the analyzer checks for every file. */
  predicate Suspicious(p: string) {
    EnvPattern(p) || SecretPattern(p) || ConfigPattern(p)
  }

  /** The env rule: the path ends in `.env`, or contains `.env.` with no line
      terminator after it. */
  lemma EnvPatternReading(p: string)
    ensures EnvPattern(p) <==>
      || EndsWith(p, ".env")
      || exists i :: 0 <= i <= |p| && OccursAt(p, ".env.", i) && NoLineTerminatorFrom(p, i + 5)
  {
    if EnvPattern(p) {
      var i :| 0 <= i <= |p| && EnvMatchAt(p, i);
      if i + 4 == |p| {
        assert p[|p| - 4..] == p[i..i + 4];
      } else {
        assert p[i..i + 5] == p[i..i + 4] + [p[i + 4]];
        assert OccursAt(p, ".env.", i);
      }
    }
    if EndsWith(p, ".env") {
      assert EnvMatchAt(p, |p| - 4);
    }
    if exists i :: 0 <= i <= |p| && OccursAt(p, ".env.", i) && NoLineTerminatorFrom(p, i + 5) {
      var i :| 0 <= i <= |p| && OccursAt(p, ".env.", i) && NoLineTerminatorFrom(p, i + 5);
      assert p[i..i + 4] == p[i..i + 5][..4];
      assert p[i + 4] == p[i..i + 5][4];
      assert EnvMatchAt(p, i);
    }
  }

  /** On a single-line path the env rule is "ends in `.env` or contains `.env.`". */
  lemma EnvPatternSingleLine(p: string)
    requires NoLineTerminatorFrom(p, 0)
    ensures EnvPattern(p) <==> EndsWith(p, ".env") || Contains(p, ".env.")
  {
    EnvPatternReading(p);
  }

  /** The secrets rule: an ASCII case-insensitive substring test for `secret.`
      or `secrets.`. */
  lemma SecretPatternReading(p: string)
    ensures SecretPattern(p) <==> Contains(Lower(p), "secret.") || Contains(Lower(p), "secrets.")
  {
    var low := Lower(p);
    if SecretPattern(p) {
      var i :| 0 <= i <= |p| && SecretMatchAt(p, i);
      if OccursAt(low, ".", i + 6) {
        assert low[i..i + 7] == low[i..i + 6] + low[i + 6..i + 7];
        assert OccursAt(low, "secret.", i);
      } else {
        assert low[i..i + 8] == low[i..i + 6] + low[i + 6..i + 8];
        assert OccursAt(low, "secrets.", i);
      }
    }
    if Contains(low, "secret.") {
      var i :| 0 <= i <= |low| && OccursAt(low, "secret.", i);
      assert low[i..i + 6] == low[i..i + 7][..6];
      assert low[i + 6..i + 7] == low[i..i + 7][6..];
      assert SecretMatchAt(p, i);
    }
    if Contains(low, "secrets.") {
      var i :| 0 <= i <= |low| && OccursAt(low, "secrets.", i);
      assert low[i..i + 6] == low[i..i + 8][..6];
      assert low[i + 6..i + 8] == low[i..i + 8][6..];
      assert SecretMatchAt(p, i);
    }
  }

  /** A match of the config rule at `i` is a suffix of the path. */
  lemma ConfigMatchIsSuffix(p: string, i: nat)
    requires ConfigMatchAt(p, i)
    ensures EndsWith(p, p[i..])
    ensures p[i..] == "config" + p[i + 6..]
  {
    assert p[i..] == p[i..i + 6] + p[i + 6..];
  }

  /** The config rule matches at `|p| - |w|` when the path ends in `w`. */
  lemma ConfigSuffixMatches(p: string, w: string)
    requires w == "config" || w == "config.js" || w == "config.ts"
    requires EndsWith(p, w)
    ensures ConfigMatchAt(p, |p| - |w|)
  {
    var i := |p| - |w|;
    assert p[i..] == w;
    assert p[i..i + 6] == w[..6];
    assert p[i + 6..] == w[6..];
  }

  /** The config rule: a case-sensitive suffix test for `config`, `config.js`
      or `config.ts`. */
  lemma ConfigPatternReading(p: string)
    ensures ConfigPattern(p) <==> EndsWith(p, "config") || EndsWith(p, "config.js") || EndsWith(p, "config.ts")
  {
    if ConfigPattern(p) {
      var i :| 0 <= i <= |p| && ConfigMatchAt(p, i);
      ConfigMatchIsSuffix(p, i);
    }
    if EndsWith(p, "config") {
      ConfigSuffixMatches(p, "config");
    }
    if EndsWith(p, "config.js") {
      ConfigSuffixMatches(p, "config.js");
    }
    if EndsWith(p, "config.ts") {
      ConfigSuffixMatches(p, "config.ts");
    }
  }

  /** The env rule needs a `v`. */
  lemma EnvNeedsV(p: string)
    requires 'v' !in p
    ensures !EnvPattern(p)
  {
    forall i | 0 <= i <= |p| && i + 4 <= |p|
      ensures !EnvMatchAt(p, i)
    {
      assert p[i..i + 4][3] == p[i + 3];
    }
  }

  /** The secrets rule needs an `s` and an `e`, in either case. */
  lemma SecretNeedsLetters(p: string)
    requires ('s' !in p && 'S' !in p) || ('e' !in p && 'E' !in p)
    ensures !SecretPattern(p)
  {
    var low := Lower(p);
    forall i | 0 <= i <= |p| && i + 6 <= |p|
      ensures !SecretMatchAt(p, i)
    {
      assert low[i..i + 6][0] == low[i] == LowerChar(p[i]);
      assert low[i..i + 6][1] == low[i + 1] == LowerChar(p[i + 1]);
    }
  }

  /** `foo.env` and `.env.local` match the env rule. */
  lemma EnvMatchExamples()
    ensures EnvPattern("foo.env") && EnvPattern(".env.local")
  {
    assert EnvMatchAt("foo.env", 3);
    assert NoLineTerminatorFrom(".env.local", 5);
    assert EnvMatchAt(".env.local", 0);
  }

  /** `.environment` does not: the `.env` it starts with is followed by `i`. */
  lemma EnvironmentNotMatched()
    ensures !EnvPattern(".environment")
  {
    var p := ".environment";
    forall i | 0 <= i <= |p| && i + 4 <= |p|
      ensures !EnvMatchAt(p, i)
    {
      if i == 0 {
        assert p[4] == 'i';
      } else {
        assert p[i..i + 4][0] == p[i] != '.';
      }
    }
  }

  /** `webpack.config.js` and a bare `config` match the config rule;
      `config.json` does not. */
  lemma ConfigExamples()
    ensures ConfigPattern("webpack.config.js") && ConfigPattern("config")
    ensures !ConfigPattern("config.json")
  {
    ConfigPatternReading("webpack.config.js");
    ConfigPatternReading("config");
    ConfigPatternReading("config.json");
    assert EndsWith("webpack.config.js", "config.js");
    assert "config.json"[2..] != "config.js";
  }

  /** The secrets rule ignores ASCII case but needs the dot: `SECRETS.json`
      matches, a bare `secret` does not. */
  lemma SecretExamples()
    ensures SecretPattern("SECRETS.json")
    ensures !SecretPattern("secret")
  {
    var low := Lower("SECRETS.json");
    assert low[..8] == "secrets.";
    assert low[0..6] == "secret" && low[6..8] == "s.";
    assert SecretMatchAt("SECRETS.json", 0);
  }
}
