/** The TLD resolver: the top-level domain of a name is its last
    dot-separated label. No validation of the name takes place. */
module Tld {
  import opened GoStrings

  /** `ExtractTLD`: the text after the last '.' of `domain`, or all of
      `domain` when it has no '.'. Never fails, because a split always yields
      at least one piece. */
  function ExtractTLD(domain: string): (tld: string)
    ensures '.' !in tld
    ensures |tld| <= |domain| && domain[|domain| - |tld|..] == tld
    ensures |tld| < |domain| ==> domain[|domain| - |tld| - 1] == '.'
    ensures '.' !in domain ==> tld == domain
  {
    var parts := Split(domain, '.');
    LastPieceIsSuffix(domain, '.');
    parts[|parts| - 1]
  }

  /** `t` is a `sep`-free suffix of `s` that cannot be extended: it is all
      of `s`, or a `sep` comes right before it. */
  ghost predicate MaximalFreeSuffix(s: string, t: string, sep: char)
  {
    && sep !in t
    && |t| <= |s| && s[|s| - |t|..] == t
    && (|t| < |s| ==> s[|s| - |t| - 1] == sep)
  }

  /** A suffix longer than a maximal `sep`-free suffix reaches the `sep`
      in front of it. */
  lemma LongerSuffixHasSep(s: string, t: string, u: string, sep: char)
    requires MaximalFreeSuffix(s, u, sep)
    requires |u| < |t| <= |s| && s[|s| - |t|..] == t
    ensures sep in t
  {
    assert t[|t| - |u| - 1] == s[|s| - |u| - 1];
  }

  /** A string has only one maximal `sep`-free suffix. */
  lemma MaximalFreeSuffixUnique(s: string, t: string, u: string, sep: char)
    requires MaximalFreeSuffix(s, t, sep) && MaximalFreeSuffix(s, u, sep)
    ensures t == u
  {
    if |t| > |u| {
      LongerSuffixHasSep(s, t, u, sep);
      assert false;
    } else if |t| < |u| {
      LongerSuffixHasSep(s, u, t, sep);
      assert false;
    }
  }

  /** A name made of any prefix, a dot and a dot-free label has that label
      as its TLD. */
  lemma TldAfterLastDot(prefix: string, last: string)
    requires '.' !in last
    ensures ExtractTLD(prefix + ['.'] + last) == last
  {
    var domain := prefix + ['.'] + last;
    assert domain[|domain| - |last|..] == last;
    MaximalFreeSuffixUnique(domain, ExtractTLD(domain), last, '.');
  }

  /** The TLD of a TLD is itself. */
  lemma TldIdempotent(domain: string)
    ensures ExtractTLD(ExtractTLD(domain)) == ExtractTLD(domain)
  {
  }

  lemma TldOfDottedName()
    ensures ExtractTLD("example.com") == "com"
  {
    TldAfterLastDot("example", "com");
    assert "example.com" == "example" + ['.'] + "com";
  }

  lemma TldOfDotlessName()
    ensures ExtractTLD("localhost") == "localhost"
    ensures ExtractTLD("") == ""
  {
    assert forall i :: 0 <= i < |"localhost"| ==> "localhost"[i] != '.';
  }

  /** A name ending in a dot has the empty TLD. */
  lemma TldOfTrailingDot(prefix: string)
    ensures ExtractTLD(prefix + ".") == ""
  {
    TldAfterLastDot(prefix, "");
    assert prefix + "." == prefix + ['.'] + "";
  }
}
