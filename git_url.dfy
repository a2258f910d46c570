/** The clone-URL normaliser of index.js:27-29. */
module GitUrl {

  /** The literal suffix that is removed. */
  const GitSuffix: string := ".git"

  /** `s.endsWith(suffix)` of JavaScript strings. */
  predicate EndsWith(s: string, suffix: string)
  {
    |suffix| <= |s| && s[|s| - |suffix|..] == suffix
  }

  /** Removes one literal trailing ".git", if there is one. The result is
      always a prefix of the input, it differs from the input exactly when the
      input ends with ".git", and then putting ".git" back restores the input. */
  function StripGitSuffix(url: string): (r: string)
    ensures r <= url
    ensures r != url <==> EndsWith(url, GitSuffix)
    ensures EndsWith(url, GitSuffix) ==> |r| == |url| - 4 && r + GitSuffix == url
  {
    if EndsWith(url, GitSuffix) then url[..|url| - |GitSuffix|] else url
  }

  /** Stripping undoes appending the suffix. */
  lemma StripAppendedSuffix(base: string)
    ensures StripGitSuffix(base + GitSuffix) == base
  {
  }

  /** Only one suffix is removed: stripping is not idempotent. */
  lemma StripRemovesOnlyOneSuffix(base: string)
    ensures StripGitSuffix(base + GitSuffix + GitSuffix) == base + GitSuffix
    ensures StripGitSuffix(StripGitSuffix(base + GitSuffix + GitSuffix)) == base
  {
  }

  /** A definition of the normaliser independent of its body: `r` is the
      normal form of `url` exactly when `url` is `r` followed by ".git", or
      `url` has no such suffix and is `r` itself. */
  lemma StripGitSuffixCharacterization(url: string, r: string)
    ensures StripGitSuffix(url) == r <==>
      (url == r + GitSuffix || (r == url && !EndsWith(url, GitSuffix)))
  {
  }
}
