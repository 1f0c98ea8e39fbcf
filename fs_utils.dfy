/** Path and module-id predicates of packages/trs/src/lib/fs-utils.js. The filesystem
    helpers of that file (`rm`, `isDirectory`, `isFile`) are I/O and are not modelled. */
module FsUtils {
  import opened Strings

  /** `\w` (without the `i` flag) or `-`. */
  predicate IsWordOrDash(c: char) {
    ('a' <= c <= 'z') || ('A' <= c <= 'Z') || ('0' <= c <= '9') || c == '_' || c == '-'
  }

  /** The id with one optional leading NUL removed: what the `^\0?` part consumes. */
  function AfterNul(id: string): string {
    if |id| > 0 && id[0] == '\0' then id[1..] else id
  }

  /** `(?:file|https?):\/\/` matched at the start of `s`. */
  predicate IsUrlScheme(s: string) {
    StartsWith(s, "file://") || StartsWith(s, "http://") || StartsWith(s, "https://")
  }

  /** `[\w-]{2,}:` matched at the start of `s`, as the regex engine sees it: some run of two or
      more word characters or dashes followed by a colon. */
  predicate IsNamedPrefix(s: string) {
    exists k | 2 <= k < |s| :: s[k] == ':' && forall i | 0 <= i < k :: IsWordOrDash(s[i])
  }

  /** Pattern `^\0?P` tried with and without the optional NUL (regex backtracking). */
  predicate AnchoredWithOptionalNul(id: string, isUrl: bool) {
    (if isUrl then IsUrlScheme(id) else IsNamedPrefix(id))
    || (|id| > 0 && id[0] == '\0'
        && (if isUrl then IsUrlScheme(id[1..]) else IsNamedPrefix(id[1..])))
  }

  /** Length of the leading run of word characters and dashes. */
  function WordRun(s: string): (n: nat)
    ensures n <= |s| && (n == |s| || !IsWordOrDash(s[n]))
    ensures forall i | 0 <= i < n :: IsWordOrDash(s[i])
  {
    if s == [] || !IsWordOrDash(s[0]) then 0 else 1 + WordRun(s[1..])
  }

  /** The run ends at the first character that is neither a word character nor a dash. */
  lemma {:induction false} WordRunStops(s: string, k: nat)
    requires k < |s| && !IsWordOrDash(s[k]) && forall i | 0 <= i < k :: IsWordOrDash(s[i])
    ensures WordRun(s) == k
  {
    if k > 0 {
      WordRunStops(s[1..], k - 1);
    }
  }

  /** `hasCustomPrefix(id)` (fs-utils.js:37-40). */
  function HasCustomPrefix(id: string): bool {
    var rest := AfterNul(id);
    var n := WordRun(rest);
    !IsUrlScheme(rest) && 2 <= n < |rest| && rest[n] == ':'
  }

  /** The computed test agrees with the two regular expressions of the source, including
      the backtracking over the optional NUL. */
  lemma HasCustomPrefixIsRegexTest(id: string)
    ensures HasCustomPrefix(id)
        == (!AnchoredWithOptionalNul(id, true) && AnchoredWithOptionalNul(id, false))
  {
    var rest := AfterNul(id);
    var n := WordRun(rest);
    if |id| > 0 && id[0] == '\0' {
      assert !IsUrlScheme(id) by { assert id[0] != "file://"[0] && id[0] != "http://"[0]; }
      assert !IsNamedPrefix(id) by { assert !IsWordOrDash(id[0]); }
    }
    if IsNamedPrefix(rest) {
      var k :| 2 <= k < |rest| && rest[k] == ':' && forall i | 0 <= i < k :: IsWordOrDash(rest[i]);
      WordRunStops(rest, k);
    }
    if 2 <= n < |rest| && rest[n] == ':' {
      assert IsNamedPrefix(rest);
    }
  }

  /** Windows drive letters are not prefixes. */
  lemma DriveLetterIsNotPrefix(rest: string)
    ensures !HasCustomPrefix("C:" + rest)
  {
    var id := "C:" + rest;
    assert WordRun(id) == 1 by { assert id[1] == ':'; assert WordRun(id[1..]) == 0; }
  }

  /** Ids that are file or web URLs never count, whatever follows the scheme. */
  lemma UrlIsNotPrefix(scheme: string, rest: string)
    requires scheme == "file://" || scheme == "http://" || scheme == "https://"
    ensures !HasCustomPrefix(scheme + rest)
  {
    assert StartsWith(scheme + rest, scheme) by { assert (scheme + rest)[..|scheme|] == scheme; }
  }

  /** Nor do they after a leading NUL. */
  lemma NulUrlIsNotPrefix(scheme: string, rest: string)
    requires scheme == "file://" || scheme == "http://" || scheme == "https://"
    ensures !HasCustomPrefix("\0" + scheme + rest)
  {
    UrlIsNotPrefix(scheme, rest);
    assert "\0" + scheme + rest == "\0" + (scheme + rest);
    assert AfterNul("\0" + (scheme + rest)) == scheme + rest;
  }

  /** A name of two or more word characters and a colon is a prefix. */
  lemma NamedPrefixIsPrefix(name: string, rest: string)
    requires |name| >= 2 && forall i | 0 <= i < |name| :: IsWordOrDash(name[i])
    requires name != "file" && name != "http" && name != "https"
    ensures HasCustomPrefix(name + ":" + rest)
  {
    var s := name + ":" + rest;
    assert s[|name|] == ':' && s[..|name|] == name;
    WordRunStops(s, |name|);
    if StartsWith(s, "file://") { SchemeRun(s, "file"); }
    if StartsWith(s, "http://") { SchemeRun(s, "http"); }
    if StartsWith(s, "https://") { SchemeRun(s, "https"); }
  }

  /** It stays one after a leading NUL. */
  lemma NulNamedPrefixIsPrefix(name: string, rest: string)
    requires |name| >= 2 && forall i | 0 <= i < |name| :: IsWordOrDash(name[i])
    requires name != "file" && name != "http" && name != "https"
    ensures HasCustomPrefix("\0" + name + ":" + rest)
  {
    NamedPrefixIsPrefix(name, rest);
    var s := name + ":" + rest;
    assert "\0" + name + ":" + rest == "\0" + s;
    assert AfterNul("\0" + s) == s;
  }

  /** A string that starts with `scheme://` has its word run end right before the colon. */
  lemma SchemeRun(s: string, scheme: string)
    requires scheme == "file" || scheme == "http" || scheme == "https"
    requires StartsWith(s, scheme + "://")
    ensures WordRun(s) == |scheme| && s[..|scheme|] == scheme
  {
    var u := scheme + "://";
    assert s[..|u|] == u;
    assert s[|scheme|] == ':';
    assert forall i | 0 <= i < |scheme| :: s[i] == scheme[i];
    WordRunStops(s, |scheme|);
  }

  /** `pathToUrl(p)` (fs-utils.js:48-50): `p.replaceAll('\\', '/')`. */
  function PathToUrl(p: string): string {
    if p == [] then [] else [if p[0] == '\\' then '/' else p[0]] + PathToUrl(p[1..])
  }

  /** Every backslash becomes a slash; every other character and the length stay. */
  lemma {:induction false} PathToUrlPointwise(p: string)
    ensures |PathToUrl(p)| == |p|
    ensures forall i | 0 <= i < |p| :: PathToUrl(p)[i] == if p[i] == '\\' then '/' else p[i]
  {
    if p != [] {
      PathToUrlPointwise(p[1..]);
    }
  }

  /** The result holds no backslash, and a second application changes nothing. */
  lemma PathToUrlNormalForm(p: string)
    ensures '\\' !in PathToUrl(p)
    ensures PathToUrl(PathToUrl(p)) == PathToUrl(p)
  {
    var q := PathToUrl(p);
    PathToUrlPointwise(p);
    PathToUrlPointwise(q);
    assert forall i | 0 <= i < |q| :: q[i] != '\\';
  }
}
