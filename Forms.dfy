/**
 * The settings form's URL cleaner (`ManageSettingsForm.clean_sdios_url`
 * in sdios_lti/forms.py): two regular-expression substitutions, written
 * out as the matches Python's `re` finds.
 */
module Forms {

  /** Characters `re.IGNORECASE` matches to the pattern letters `h`, `t`, `p` and `s` (`s` also matches U+017F, LATIN SMALL LETTER LONG S). */
  predicate IsH(c: char) { c == 'h' || c == 'H' }
  predicate IsT(c: char) { c == 't' || c == 'T' }
  predicate IsP(c: char) { c == 'p' || c == 'P' }
  predicate IsS(c: char) { c == 's' || c == 'S' || c == 'ſ' }

  /** `s` starts with `http` in any case. */
  predicate HttpAt(s: string) {
    |s| >= 4 && IsH(s[0]) && IsT(s[1]) && IsT(s[2]) && IsP(s[3])
  }

  /**
   * The length of the match of `^https?://` (ignoring case) at the start
   * of `s`, 0 when there is none; the optional `s` is tried first.
   */
  function SchemeLength(s: string): (n: nat)
    ensures n == 0 || n == 7 || n == 8
    ensures n <= |s|
    ensures n == 8 <==> HttpAt(s) && |s| >= 8 && IsS(s[4]) && s[5..8] == "://"
    ensures n == 7 <==> HttpAt(s) && |s| >= 7 && s[4..7] == "://"
  {
    if HttpAt(s) && |s| >= 8 && IsS(s[4]) && s[5..8] == "://" then 8
    else if HttpAt(s) && |s| >= 7 && s[4..7] == "://" then 7
    else 0
  }

  /** `re.sub(r"^https?://", "", s, flags=re.I)`: `^` only matches at the start, so at most one prefix goes. */
  function StripScheme(s: string): string {
    s[SchemeLength(s)..]
  }

  /** `s` without its run of trailing slashes. */
  function StripSlashes(s: string): (r: string)
    ensures |r| <= |s| && r == s[..|r|]
    ensures r == [] || r[|r| - 1] != '/'
    ensures forall i :: |r| <= i < |s| ==> s[i] == '/'
    decreases |s|
  {
    if s != [] && s[|s| - 1] == '/' then StripSlashes(s[..|s| - 1]) else s
  }

  /**
   * `re.sub(r"/+$", "", s)`: `$` matches at the end and also before a
   * final newline, so slashes before a final newline go too.
   */
  function StripTrailing(s: string): string {
    if s != [] && s[|s| - 1] == '\n' then StripSlashes(s[..|s| - 1]) + "\n" else StripSlashes(s)
  }

  /** `clean_sdios_url`: the scheme prefix and then the trailing slashes are removed; the result never ends with a slash. */
  function CleanUrl(url: string): (r: string)
    ensures r == [] || r[|r| - 1] != '/'
  {
    StripTrailing(StripScheme(url))
  }

  /** Stripping slashes shortens the string unless there are none to strip. */
  lemma StripTrailingShortens(s: string)
    ensures |StripTrailing(s)| <= |s|
    ensures |StripTrailing(s)| == |s| <==> !EndsWithSlash(s)
  {
    if s != [] && s[|s| - 1] == '\n' {
      var t := s[..|s| - 1];
      if t != [] && t[|t| - 1] == '/' {
        assert |StripSlashes(t[..|t| - 1])| <= |t| - 1;
      }
    } else if s != [] && s[|s| - 1] == '/' {
      assert |StripSlashes(s[..|s| - 1])| <= |s| - 1;
    }
  }

  /** `s` ends with a slash, or with a slash and a newline: what `/+$` finds. */
  predicate EndsWithSlash(s: string) {
    (|s| >= 1 && s[|s| - 1] == '/') || (|s| >= 2 && s[|s| - 2] == '/' && s[|s| - 1] == '\n')
  }

  /** A URL comes back unchanged exactly when it has no scheme prefix and nothing for `/+$` to remove. */
  lemma CleanUrlUnchanged(url: string)
    ensures CleanUrl(url) == url <==> SchemeLength(url) == 0 && !EndsWithSlash(url)
  {
    var s := StripScheme(url);
    StripTrailingShortens(s);
    if SchemeLength(url) == 0 {
      assert s == url;
      if !EndsWithSlash(url) {
        if url != [] && url[|url| - 1] == '\n' {
          assert url[..|url| - 1] + "\n" == url;
        }
      }
    }
  }

  /**
   * A scheme prefix is removed once: whatever follows it, even a second
   * prefix, is kept.
   */
  lemma SchemeRemovedOnce(p: string, rest: string)
    requires SchemeLength(p) == |p| && |p| > 0
    ensures StripScheme(p + rest) == rest
    ensures CleanUrl(p + rest) == StripTrailing(rest)
  {
    var s := p + rest;
    assert s[..|p|] == p;
    if |p| == 7 {
      assert s[4] == ':';
      assert s[4..7] == p[4..7];
    } else {
      assert s[4] == p[4] && s[5..8] == p[5..8];
    }
    assert s[|p|..] == rest;
  }

  /**
   * Without a final newline the result is one contiguous part of the URL:
   * it starts right after the scheme prefix, and only slashes follow it.
   */
  lemma CleanUrlSubstring(url: string)
    requires url == [] || url[|url| - 1] != '\n'
    ensures var n := SchemeLength(url); var r := CleanUrl(url);
      && n + |r| <= |url|
      && r == url[n..n + |r|]
      && forall i :: n + |r| <= i < |url| ==> url[i] == '/'
  {
    var n := SchemeLength(url);
    var s := url[n..];
    var r := StripSlashes(s);
    assert CleanUrl(url) == r;
    forall i | n + |r| <= i < |url| ensures url[i] == '/' {
      assert url[i] == s[i - n];
    }
  }

  /**
   * A final newline stays, and the slashes right before it are removed as
   * if it were not there.
   */
  lemma CleanUrlBeforeNewline(url: string)
    requires url != [] && url[|url| - 1] == '\n'
    ensures CleanUrl(url) == StripSlashes(StripScheme(url[..|url| - 1])) + "\n"
  {
    var t := url[..|url| - 1];
    if |t| >= 8 {
      assert url[..4] == t[..4] && url[4] == t[4] && url[4..7] == t[4..7] && url[5..8] == t[5..8];
    } else if |t| == 7 {
      assert url[..4] == t[..4] && url[4..7] == t[4..7];
      assert url[7] == '\n';
    } else if |t| >= 4 {
      assert url[..4] == t[..4];
      assert url[|url| - 1] == '\n';
    }
    var n := SchemeLength(url);
    assert SchemeLength(t) == n;
    assert url[n..][..|url[n..]| - 1] == t[n..];
  }
}
