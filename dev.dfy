/** The request rules and the connection closer of packages/trs/src/dev.js. */
module DevServer {
  import opened Strings
  import Compression

  /** A socket, by identity. */
  type Socket = int

  /** A `Set` of sockets: insertion-ordered, each at most once. */
  predicate Distinct(xs: seq<Socket>) {
    forall i, j | 0 <= i < j < |xs| :: xs[i] != xs[j]
  }

  /** `set.add(s)`: appended when new, no change otherwise. */
  function Insert(xs: seq<Socket>, s: Socket): seq<Socket> {
    if s in xs then xs else xs + [s]
  }

  /** `set.delete(s)`: the other sockets, in their order. */
  function Remove(xs: seq<Socket>, s: Socket): (r: seq<Socket>)
    ensures |r| <= |xs|
  {
    if xs == [] then []
    else Remove(xs[..|xs| - 1], s) + (if xs[|xs| - 1] == s then [] else [xs[|xs| - 1]])
  }

  lemma InsertMembers(xs: seq<Socket>, s: Socket)
    requires Distinct(xs)
    ensures Distinct(Insert(xs, s))
    ensures forall x :: x in Insert(xs, s) <==> x in xs || x == s
  {
  }

  lemma {:induction false} RemoveMembers(xs: seq<Socket>, s: Socket)
    requires Distinct(xs)
    ensures Distinct(Remove(xs, s))
    ensures forall x :: x in Remove(xs, s) <==> x in xs && x != s
  {
    if xs != [] {
      var init, last := xs[..|xs| - 1], xs[|xs| - 1];
      assert xs == init + [last];
      assert Distinct(init);
      RemoveMembers(init, s);
      forall x | x in Remove(init, s)
        ensures x != last
      {
        var i :| 0 <= i < |init| && init[i] == x;
        assert xs[i] == x;
      }
      var r := Remove(init, s) + (if last == s then [] else [last]);
      assert Remove(xs, s) == r;
      forall i, j | 0 <= i < j < |r|
        ensures r[i] != r[j]
      {
        if j == |r| - 1 && last != s {
          assert r[i] in Remove(init, s);
        }
      }
    }
  }

  /** Removing a socket that was not in the set changes nothing. */
  lemma {:induction false} RemoveAbsent(xs: seq<Socket>, s: Socket)
    requires s !in xs
    ensures Remove(xs, s) == xs
  {
    if xs != [] {
      RemoveAbsent(xs[..|xs| - 1], s);
      assert xs[..|xs| - 1] + [xs[|xs| - 1]] == xs;
    }
  }

  /** A connection that opens and closes again leaves the set as it was. */
  lemma InsertThenRemove(xs: seq<Socket>, s: Socket)
    requires s !in xs
    ensures Remove(Insert(xs, s), s) == xs
  {
    assert (xs + [s])[..|xs + [s]| - 1] == xs;
    RemoveAbsent(xs, s);
  }

  datatype CloseResult = Resolved | Rejected(error: string)

  /** The state behind `makeCloseable(server)` (dev.js:253-273): the open sockets, whether
      `listening` fired, and — as the record of what the closer did — the sockets destroyed
      and the number of `server.close` calls. */
  class Closeable {
    var sockets: seq<Socket>
    var listened: bool
    var destroyed: seq<Socket>
    var serverCloseCalls: nat

    ghost predicate Valid()
      reads this
    {
      Distinct(sockets)
    }

    constructor ()
      ensures Valid()
      ensures sockets == [] && !listened && destroyed == [] && serverCloseCalls == 0
    {
      sockets := [];
      listened := false;
      destroyed := [];
      serverCloseCalls := 0;
    }

    /** The server's `connection` event (dev.js:258-261). */
    method OnConnection(s: Socket)
      requires Valid()
      modifies this
      ensures Valid()
      ensures sockets == Insert(old(sockets), s)
      ensures listened == old(listened) && destroyed == old(destroyed) && serverCloseCalls == old(serverCloseCalls)
    {
      InsertMembers(sockets, s);
      if s !in sockets {
        sockets := sockets + [s];
      }
    }

    /** A socket's own `close` event (dev.js:260). */
    method OnSocketClose(s: Socket)
      requires Valid()
      modifies this
      ensures Valid()
      ensures sockets == Remove(old(sockets), s)
      ensures listened == old(listened) && destroyed == old(destroyed) && serverCloseCalls == old(serverCloseCalls)
    {
      RemoveMembers(sockets, s);
      sockets := Remove(sockets, s);
    }

    /** The server's first `listening` event (dev.js:263); a later one changes nothing. */
    method OnListening()
      requires Valid()
      modifies this
      ensures Valid() && listened
      ensures sockets == old(sockets) && destroyed == old(destroyed) && serverCloseCalls == old(serverCloseCalls)
    {
      listened := true;
    }

    /** The closer (dev.js:265-272): every open socket is destroyed, in set order, before
        anything else; `server.close` is called only once `listening` has fired, and its
        error, given here as `closeError`, rejects the returned promise. */
    method Close(closeError: Option<string>) returns (r: CloseResult)
      requires Valid()
      modifies this
      ensures Valid()
      ensures destroyed == old(destroyed) + old(sockets)
      ensures sockets == old(sockets) && listened == old(listened)
      ensures serverCloseCalls == old(serverCloseCalls) + (if listened then 1 else 0)
      ensures r == (if listened && closeError.Some? then Rejected(closeError.value) else Resolved)
    {
      for k := 0 to |sockets|
        invariant sockets == old(sockets) && listened == old(listened)
        invariant destroyed == old(destroyed) + sockets[..k]
        invariant serverCloseCalls == old(serverCloseCalls)
      {
        destroyed := destroyed + [sockets[k]];
        assert sockets[..k + 1] == sockets[..k] + [sockets[k]];
      }
      assert sockets[..|sockets|] == sockets;
      if !listened {
        return Resolved;
      }
      serverCloseCalls := serverCloseCalls + 1;
      r := if closeError.Some? then Rejected(closeError.value) else Resolved;
    }
  }

  /** What a middleware does with a request: pass it on, or answer it with a status, headers
      given to `writeHead` and the body given to `end` (empty for `end()`). */
  datatype Action = CallNext | Respond(status: int, headers: seq<(string, string)>, body: string)

  const SourceMapMarker: string := "?%20[sm]"

  /** The source-map redirect (dev.js:205-216). */
  function SourceMapRedirect(url: string): (r: Action)
    ensures r.Respond? <==> EndsWith(url, SourceMapMarker)
    ensures r.Respond? ==> r.status == 302 && r.body == "" && |r.headers| == 1 && r.headers[0].0 == "Location"
  {
    if EndsWith(url, SourceMapMarker) then Respond(302, [("Location", ReplaceFirst(url, SourceMapMarker, ".map"))], "")
    else CallNext
  }

  /** When the marker occurs only at the end, the trailing marker becomes `.map`. */
  lemma RedirectReplacesTrailingMarker(base: string)
    requires forall j | 0 <= j < |base| :: !MatchesAt(base + SourceMapMarker, j, SourceMapMarker)
    ensures SourceMapRedirect(base + SourceMapMarker) == Respond(302, [("Location", base + ".map")], "")
  {
    var url := base + SourceMapMarker;
    assert url[|url| - |SourceMapMarker|..] == SourceMapMarker;
    assert MatchesAt(url, |base|, SourceMapMarker) by { assert url[|base|..|base| + |SourceMapMarker|] == SourceMapMarker; }
    assert IndexOf(url, SourceMapMarker) == Some(|base|);
    assert url[..|base|] == base;
    assert url[|base| + |SourceMapMarker|..] == [];
    assert base + ".map" + [] == base + ".map";
  }

  /** `String.prototype.replace` with a string pattern replaces the first occurrence, so a
      marker that also occurs earlier stays at the end of the Location. */
  lemma RedirectReplacesFirstMarker(a: string, b: string)
    requires forall j | 0 <= j < |a| :: !MatchesAt(a + SourceMapMarker + b + SourceMapMarker, j, SourceMapMarker)
    ensures SourceMapRedirect(a + SourceMapMarker + b + SourceMapMarker)
         == Respond(302, [("Location", a + ".map" + b + SourceMapMarker)], "")
  {
    var url := a + SourceMapMarker + b + SourceMapMarker;
    var m := |SourceMapMarker|;
    assert url[|url| - m..] == SourceMapMarker;
    assert MatchesAt(url, |a|, SourceMapMarker) by { assert url[|a|..|a| + m] == SourceMapMarker; }
    assert IndexOf(url, SourceMapMarker) == Some(|a|);
    assert url[..|a|] == a;
    assert url[|a| + m..] == b + SourceMapMarker;
    assert a + ".map" + (b + SourceMapMarker) == a + ".map" + b + SourceMapMarker;
  }

  /** A letter of `[a-z]` under `/iu`: ASCII letters of either case, and the long s (U+017F)
      and the Kelvin sign (U+212A), which case-fold to `s` and `k`. */
  predicate IsRegexLetter(c: char) {
    ('a' <= c <= 'z') || ('A' <= c <= 'Z') || c == '\U{017F}' || c == '\U{212A}'
  }

  /** `/\.[a-z]+$/iu.test(path)`: the path ends in a dot and one or more letters. */
  predicate HasExtension(path: string) {
    MarkBeforeRun(path, '.', IsRegexLetter).Some?
  }

  lemma HasExtensionIff(path: string)
    ensures HasExtension(path)
        <==> exists k | 0 <= k < |path| - 1 :: path[k] == '.' && AllSatisfy(path[k + 1..], IsRegexLetter)
  {
    if HasExtension(path) {
      var k := MarkBeforeRun(path, '.', IsRegexLetter).value;
      assert path[k] == '.' && AllSatisfy(path[k + 1..], IsRegexLetter);
    }
  }

  /** The injection is skipped for asset paths and for `/@npm` paths (dev.js:53-55), given
      the path after `posix.normalize`. */
  predicate SkipsInjection(path: string) {
    HasExtension(path) || StartsWith(path, "/@npm")
  }

  /** Paths with an extension of letters, in either case, skip the injection. */
  lemma AssetPathsSkip()
    ensures SkipsInjection("/main.js") && SkipsInjection("/logo.SVG")
  {
    MarkBeforeRunIff("/main.js", '.', IsRegexLetter, 5);
    MarkBeforeRunIff("/logo.SVG", '.', IsRegexLetter, 5);
  }

  lemma NpmPathsSkip(rest: string)
    ensures SkipsInjection("/@npm" + rest)
  {
    assert ("/@npm" + rest)[..5] == "/@npm";
  }

  /** A path without a dot has no extension. */
  lemma NoDotNoExtension(path: string)
    requires '.' !in path
    ensures !HasExtension(path)
  {
  }

  /** A path that ends in anything but a letter has no extension. */
  lemma NonLetterEndNoExtension(path: string)
    requires |path| > 0 && !IsRegexLetter(path[|path| - 1])
    ensures !HasExtension(path)
  {
  }

  const IndexContentType: string := "text/html;charset=utf-8"

  /** The headers of the injected page: its UTF-8 byte length, its type and the time taken. */
  function IndexHeaders(result: string, elapsed: int): seq<(string, string)> {
    [("Content-Length", IntToString(Utf8Length(result))), ("Content-Type", IndexContentType),
     ("Server-Timing", "index.html;dur=" + IntToString(elapsed))]
  }

  /** `injectTrsMiddleware` (dev.js:47-75) for a request whose normalized path is `path`:
      `html` is the content of `index.html` (None when it cannot be read), `inject` the HTML
      transform (None when it throws) and `elapsed` the milliseconds between the two clock
      readings. */
  function InjectIndex(path: string, html: Option<string>, inject: string -> Option<string>, elapsed: int): (r: Action)
    ensures SkipsInjection(path) ==> r == CallNext
    ensures !SkipsInjection(path) && html.Some? && inject(html.value).Some? ==>
      r == Respond(200, IndexHeaders(inject(html.value).value, elapsed), inject(html.value).value)
    ensures (html.None? || inject(html.value).None?) ==> r == CallNext
  {
    if SkipsInjection(path) then CallNext
    else match html
      case None => CallNext
      case Some(h) =>
        match inject(h)
        case None => CallNext
        case Some(result) => Respond(200, IndexHeaders(result, elapsed), result)
  }

  /** The answered page declares exactly the number of bytes its body encodes to. */
  lemma InjectedLengthIsByteLength(path: string, html: Option<string>, inject: string -> Option<string>, elapsed: int)
    requires InjectIndex(path, html, inject, elapsed).Respond?
    ensures var r := InjectIndex(path, html, inject, elapsed);
      r.status == 200 && r.headers[0] == ("Content-Length", IntToString(|Utf8Encode(r.body)|))
      && r.headers[1] == ("Content-Type", "text/html;charset=utf-8")
  {
    Utf8LengthIsEncodedSize(InjectIndex(path, html, inject, elapsed).body);
  }

  /** The `compress` option of `server()`: absent (it defaults to `true`), a boolean or a
      number. */
  datatype CompressOption = Absent | Flag(enabled: bool) | Size(n: int)

  /** dev.js:191-194: the compression middleware installed, if any. */
  function CompressionFor(compress: CompressOption): (r: Option<Compression.Config>)
    ensures r.Some? ==> r.value.brotli && r.value.gzip && r.value.level == 4
    ensures r.None? <==> compress == Flag(false) || compress == Size(0)
    ensures compress == Absent || compress == Flag(true) ==> r == Some(Compression.Config(1024, 4, true, true))
    ensures compress.Size? && compress.n != 0 ==> r.Some? && r.value.threshold == compress.n
  {
    match compress
    case Absent => Some(Compression.Config(1024, 4, true, true))
    case Flag(b) => if b then Some(Compression.Config(1024, 4, true, true)) else None
    case Size(n) => if n != 0 then Some(Compression.Config(n, 4, true, true)) else None
  }
}
