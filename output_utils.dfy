/** Console output helpers of packages/trs/src/lib/output-utils.js: the namespace colour
    pick, the debug switch, per-line namespace prefixing and the boot message. The colour
    wrappers of the terminal library and `util.inspect` are uninterpreted string functions;
    `console.log` is left to the caller, which receives the arguments it would be given. */
module OutputUtils {
  import opened Strings

  /** The 256-colour palette indices of output-utils.js:6-12. */
  const Colors: seq<int> := [
    20, 21, 26, 27, 32, 33, 38, 39, 40, 41, 42, 43, 44, 45, 56, 57, 62, 63, 68,
    69, 74, 75, 76, 77, 78, 79, 80, 81, 92, 93, 98, 99, 112, 113, 128, 129, 134,
    135, 148, 149, 160, 161, 162, 163, 164, 165, 166, 167, 168, 169, 170, 171,
    172, 173, 178, 179, 184, 185, 196, 197, 198, 199, 200, 201, 202, 203, 204,
    205, 206, 207, 208, 209, 214, 215, 220, 221]

  const TwoTo32: int := 0x1_0000_0000
  const TwoTo31: int := 0x8000_0000

  /** ECMAScript ToInt32 of an integral number: reduce modulo 2^32 into [-2^31, 2^31). */
  function ToInt32(x: int): (r: int)
    ensures -TwoTo31 <= r < TwoTo31
    ensures (r - x) % TwoTo32 == 0
  {
    var m := x % TwoTo32;
    if m >= TwoTo31 then m - TwoTo32 else m
  }

  /** ToInt32 leaves a 32-bit value unchanged and depends only on its argument modulo 2^32. */
  lemma ToInt32Facts(x: int, k: int)
    ensures -TwoTo31 <= x < TwoTo31 ==> ToInt32(x) == x
    ensures ToInt32(x + k * TwoTo32) == ToInt32(x)
  {
    assert (x + k * TwoTo32) % TwoTo32 == x % TwoTo32;
  }

  /** The UTF-16 code units JavaScript stores for a string. */
  function Utf16(s: string): seq<int> {
    if s == [] then []
    else
      var c := s[0] as int;
      (if c < 0x1_0000 then [c]
       else [0xD800 + (c - 0x1_0000) / 0x400, 0xDC00 + (c - 0x1_0000) % 0x400])
      + Utf16(s[1..])
  }

  /** `String.prototype.codePointAt(i)`: a high surrogate followed by a low one reads as the
      code point of the pair, any other unit as itself. */
  function CodePointAt(units: seq<int>, i: nat): int
    requires i < |units|
  {
    if 0xD800 <= units[i] <= 0xDBFF && i + 1 < |units| && 0xDC00 <= units[i + 1] <= 0xDFFF
    then (units[i] - 0xD800) * 0x400 + (units[i + 1] - 0xDC00) + 0x1_0000
    else units[i]
  }

  /** One round of output-utils.js:20-21: `(hash << 5) - hash + cp`, where only the shift
      works on 32 bits; `Math.trunc` leaves the integral sum as it is. */
  function HashStep(hash: int, cp: int): int {
    ToInt32(ToInt32(hash) * 32) - hash + cp
  }

  /** The hash after the first `n` code units. */
  function HashUnits(units: seq<int>, n: nat): int
    requires n <= |units|
  {
    if n == 0 then 0 else HashStep(HashUnits(units, n - 1), CodePointAt(units, n - 1))
  }

  function NamespaceHash(namespace: string): int {
    HashUnits(Utf16(namespace), |Utf16(namespace)|)
  }

  function Abs(x: int): nat {
    if x < 0 then -x else x
  }

  /** `selectColor(namespace)` (output-utils.js:15-25). */
  method SelectColor(namespace: string) returns (color: int)
    ensures color == Colors[Abs(NamespaceHash(namespace)) % |Colors|]
    ensures color in Colors
  {
    var units := Utf16(namespace);
    var hash := 0;
    for i := 0 to |units|
      invariant hash == HashUnits(units, i)
    {
      hash := ToInt32(ToInt32(hash) * 32) - hash + CodePointAt(units, i);
    }
    color := Colors[Abs(hash) % |Colors|];
  }

  /** The recurrence over the characters themselves, for text without astral characters. */
  function CharHash(s: string): int {
    if s == [] then 0 else HashStep(CharHash(s[..|s| - 1]), s[|s| - 1] as int)
  }

  /** Each character below U+10000 is one code unit. */
  lemma {:induction false} Utf16OfBmp(s: string)
    requires forall i | 0 <= i < |s| :: (s[i] as int) < 0x1_0000
    ensures |Utf16(s)| == |s| && forall i | 0 <= i < |s| :: Utf16(s)[i] == s[i] as int
  {
    if s != [] {
      Utf16OfBmp(s[1..]);
    }
  }

  /** For text without astral characters the hash is the recurrence over the characters:
      no unit is a surrogate, so `codePointAt` reads each unit as it is. */
  lemma BmpHash(s: string)
    requires forall i | 0 <= i < |s| :: (s[i] as int) < 0x1_0000
    ensures NamespaceHash(s) == CharHash(s)
  {
    Utf16OfBmp(s);
    BmpHashPrefix(s, |s|);
    assert s[..|s|] == s;
  }

  lemma {:induction false} BmpHashPrefix(s: string, n: nat)
    requires n <= |s|
    requires |Utf16(s)| == |s| && forall i | 0 <= i < |s| :: Utf16(s)[i] == s[i] as int
    ensures HashUnits(Utf16(s), n) == CharHash(s[..n])
  {
    if n > 0 {
      BmpHashPrefix(s, n - 1);
      assert s[..n][..n - 1] == s[..n - 1];
      var u := Utf16(s)[n - 1];
      assert u == s[n - 1] as int;
      assert !(0xD800 <= u <= 0xDFFF);
    }
  }

  /** An astral character is two units; the first reads as the whole code point and the
      second, a lone low surrogate, as itself. */
  lemma AstralCodePoints(c: char)
    requires (c as int) >= 0x1_0000
    ensures |Utf16([c])| == 2
    ensures CodePointAt(Utf16([c]), 0) == c as int
    ensures CodePointAt(Utf16([c]), 1) == 0xDC00 + (c as int - 0x1_0000) % 0x400
  {
    assert [c][1..] == [];
  }

  /** One more character is one more round of the recurrence. */
  lemma CharHashPrefix(s: string, k: nat)
    requires k < |s|
    ensures CharHash(s[..k + 1]) == HashStep(CharHash(s[..k]), s[k] as int)
  {
    assert s[..k + 1][..k] == s[..k];
  }

  /** One round of the recurrence on concrete numbers, with a character `a`. */
  lemma HashStepAt(h: int, next: int)
    requires h == ToInt32(h) && next == ToInt32(h * 32) - h + 97
    ensures HashStep(h, 97) == next
  {
  }

  /** The hash of seven `a`s. */
  lemma SevenAsHash(s: string)
    requires |s| == 7 && forall i | 0 <= i < |s| :: s[i] == 'a'
    ensures CharHash(s) == 3058106369
  {
    assert s[..0] == [];
    CharHashPrefix(s, 0);
    HashStepAt(0, 97);
    CharHashPrefix(s, 1);
    HashStepAt(97, 3104);
    CharHashPrefix(s, 2);
    HashStepAt(3104, 96321);
    CharHashPrefix(s, 3);
    HashStepAt(96321, 2986048);
    CharHashPrefix(s, 4);
    HashStepAt(2986048, 92567585);
    CharHashPrefix(s, 5);
    HashStepAt(92567585, -1425372064);
    CharHashPrefix(s, 6);
    HashStepAt(-1425372064, 3058106369);
    assert s[..7] == s;
  }

  const SevenAs: string := "aaaaaaa"

  /** The hash is not kept to 32 bits: seven `a`s already give 3058106369. */
  lemma HashLeavesInt32Range()
    ensures CharHash(SevenAs) == 3058106369
    ensures NamespaceHash(SevenAs) == 3058106369
  {
    SevenAsHash(SevenAs);
    BmpHash(SevenAs);
  }

  /** The module-level `debugCliArg` flag with its setter and `hasDebugFlag`. The value of
      `process.env.DEBUG` is a parameter. */
  class DebugSwitch {
    var debugCliArg: bool

    constructor ()
      ensures !debugCliArg
    {
      debugCliArg := false;
    }

    /** `setDebugCliArg(enabled)` (output-utils.js:32-34). */
    method SetDebugCliArg(enabled: bool)
      modifies this
      ensures debugCliArg == enabled
      ensures forall d :: HasDebugFlag(d) <==> enabled || d == Some("true") || d == Some("1")
    {
      debugCliArg := enabled;
    }

    /** `hasDebugFlag()` (output-utils.js:36-38). */
    predicate HasDebugFlag(debugEnv: Option<string>)
      reads this
    {
      debugEnv == Some("true") || debugEnv == Some("1") || debugCliArg
    }
  }

  /** Only the exact texts `true` and `1` switch debugging on; without the CLI flag, other
      spellings do not. */
  lemma DebugEnvIsExact(sw: DebugSwitch, d: string)
    requires !sw.debugCliArg
    requires d != "true" && d != "1"
    ensures !sw.HasDebugFlag(Some(d)) && !sw.HasDebugFlag(None)
    ensures sw.HasDebugFlag(Some("true")) && sw.HasDebugFlag(Some("1"))
  {
  }

  /** The colour and text functions of the terminal library and of `util.inspect`. */
  datatype Palette = Palette(
    ansi256: (int, string) -> string,
    bold: string -> string,
    cyan: string -> string,
    dim: string -> string,
    lightYellow: string -> string)

  /** An argument of a debug logger: a string, an object (shown through `util.inspect`), or
      any other value (`null`, `undefined`, a number, a boolean, a function). */
  datatype DebugArg = Text(s: string) | Object(inspected: string) | OtherValue

  /** What one call of a debug logger does: nothing, `console.log(...parts)`, or a
      TypeError from calling `split` on a value that is not a string. */
  datatype DebugOutput = Silent | Logged(parts: seq<string>) | TypeErrorThrown

  function PrefixEach(ns: string, lines: seq<string>): (r: seq<string>)
    ensures |r| == |lines|
  {
    if lines == [] then [] else [ns + lines[0]] + PrefixEach(ns, lines[1..])
  }

  /** output-utils.js:56-58: every line of the value gets the namespace tag in front. */
  function PrefixLines(ns: string, value: string): string {
    Join(PrefixEach(ns, Split(value, {'\n'})), "\n")
  }

  lemma {:induction false} PrefixEachPointwise(ns: string, lines: seq<string>)
    ensures forall i | 0 <= i < |lines| :: PrefixEach(ns, lines)[i] == ns + lines[i]
  {
    if lines != [] {
      PrefixEachPointwise(ns, lines[1..]);
    }
  }

  /** Prefixing keeps the lines: the result has one line per line of the value, each being
      the tag followed by that line (for a tag without a line break). */
  lemma PrefixLinesLines(ns: string, value: string)
    requires NoneIn(ns, {'\n'})
    ensures var lines := Split(value, {'\n'});
            var out := Split(PrefixLines(ns, value), {'\n'});
            |out| == |lines| && forall i | 0 <= i < |lines| :: out[i] == ns + lines[i]
  {
    var lines := Split(value, {'\n'});
    var pre := PrefixEach(ns, lines);
    PrefixEachPointwise(ns, lines);
    SplitPiecesHaveNoSep(value, {'\n'});
    forall i | 0 <= i < |pre|
      ensures NoneIn(pre[i], {'\n'})
    {
      assert pre[i] == ns + lines[i];
      assert forall k | |ns| <= k < |pre[i]| :: pre[i][k] == lines[i][k - |ns|];
    }
    SplitJoin(pre, '\n', {'\n'});
  }

  /** One line of text becomes the tag followed by that text. */
  lemma PrefixSingleLine(ns: string, value: string)
    requires NoneIn(value, {'\n'})
    ensures PrefixLines(ns, value) == ns + value
  {
    SplitNoSep(value, {'\n'});
  }

  /** The text of one argument, or None for a value without `split`. */
  function ArgText(arg: DebugArg): Option<string> {
    match arg
    case Text(s) => Some(s)
    case Object(shown) => Some(shown)
    case OtherValue => None
  }

  function DebugParts(ns: string, args: seq<DebugArg>): Option<seq<string>> {
    if args == [] then Some([])
    else match (ArgText(args[0]), DebugParts(ns, args[1..]))
         case (Some(t), Some(rest)) => Some([PrefixLines(ns, t)] + rest)
         case _ => None
  }

  /** The logger returned by `debug(namespace, color)`, called with `args` (output-utils.js:
      47-65); `enabled` is `hasDebugFlag()` at the time of the call. */
  function DebugCall(ns: string, enabled: bool, args: seq<DebugArg>): (r: DebugOutput)
    ensures !enabled ==> r == Silent
    ensures enabled ==> (r.TypeErrorThrown? <==> exists i | 0 <= i < |args| :: args[i].OtherValue?)
    ensures r.Logged? ==> |r.parts| == |args|
                          && forall i | 0 <= i < |args| :: r.parts[i] == PrefixLines(ns, ArgText(args[i]).value)
  {
    if !enabled then Silent
    else
      DebugPartsFacts(ns, args);
      match DebugParts(ns, args)
      case Some(parts) => Logged(parts)
      case None => TypeErrorThrown
  }

  lemma {:induction false} DebugPartsFacts(ns: string, args: seq<DebugArg>)
    ensures DebugParts(ns, args).None? <==> exists i | 0 <= i < |args| :: args[i].OtherValue?
    ensures DebugParts(ns, args).Some? ==>
      |DebugParts(ns, args).value| == |args|
      && forall i | 0 <= i < |args| :: DebugParts(ns, args).value[i] == PrefixLines(ns, ArgText(args[i]).value)
  {
    if args != [] {
      DebugPartsFacts(ns, args[1..]);
      if exists i | 0 <= i < |args[1..]| :: args[1..][i].OtherValue? {
        var i :| 0 <= i < |args[1..]| && args[1..][i].OtherValue?;
        assert args[i + 1].OtherValue?;
      }
      if exists i | 0 <= i < |args| :: args[i].OtherValue? {
        var i :| 0 <= i < |args| && args[i].OtherValue?;
        if i > 0 { assert args[1..][i - 1].OtherValue?; }
      }
    }
  }

  /** `debug(namespace, color)` (output-utils.js:47-48): the coloured namespace tag, with
      the colour picked from the namespace when none is given. */
  method DebugTag(pal: Palette, namespace: string, color: Option<int>) returns (ns: string)
    ensures color.Some? ==> ns == pal.ansi256(color.value, "  " + namespace + "  ")
    ensures color.None? ==>
      ns == pal.ansi256(Colors[Abs(NamespaceHash(namespace)) % |Colors|], "  " + namespace + "  ")
  {
    var c: int;
    if color.Some? {
      c := color.value;
    } else {
      c := SelectColor(namespace);
    }
    ns := pal.ansi256(c, "  " + namespace + "  ");
  }

  /** Where `/:\d+$/u` matches: the index of a colon followed by one or more ASCII digits
      up to the end of the string. */
  function PortColon(addr: string): Option<nat> {
    MarkBeforeRun(addr, ':', IsDigit)
  }

  /** `formatAddr(addr)` (output-utils.js:70-72): a trailing `:port` has its digits set in
      bold; the whole address is cyan. */
  function FormatAddr(pal: Palette, addr: string): string {
    pal.cyan(match PortColon(addr)
             case Some(k) => addr[..k] + ":" + pal.bold(addr[k + 1..])
             case None => addr)
  }

  /** An origin `host:port` has the port in bold, whatever the host holds (colons included). */
  lemma FormatAddrOrigin(pal: Palette, host: string, port: nat)
    ensures FormatAddr(pal, host + ":" + NatToString(port))
         == pal.cyan(host + ":" + pal.bold(NatToString(port)))
  {
    var d := NatToString(port);
    var a := host + ":" + d;
    assert a[|host|] == ':' && a[|host| + 1..] == d && a[..|host|] == host;
    assert forall j | |host| < j < |a| :: a[j] == d[j - |host| - 1];
    MarkBeforeRunIff(a, ':', IsDigit, |host|);
  }

  /** An address that does not end in `:digits`, such as a pipe path, stays as it is. */
  lemma FormatAddrPlain(pal: Palette, addr: string)
    requires forall k | 0 <= k < |addr| - 1 :: !(addr[k] == ':' && AllSatisfy(addr[k + 1..], IsDigit))
    ensures FormatAddr(pal, addr) == pal.cyan(addr)
  {
  }

  /** The literal start of the intro: the rocket-astronaut emoji of the source file, read
      back as Windows-1252 text, which is how the file stores it. */
  const IntroBadge: string := "\U{F0}\U{178}\U{2018}\U{A9}\U{E2}\U{20AC}\U{F0}\U{178}\U{161}\U{20AC}"

  function NetworkLines(pal: Palette, addrs: seq<string>): (r: seq<string>)
    ensures |r| == |addrs|
  {
    if addrs == [] then []
    else [ "  " + pal.dim("Network:") + " " + FormatAddr(pal, addrs[0]) ] + NetworkLines(pal, addrs[1..])
  }

  function Intro(pal: Palette, message: string): string {
    "\n  " + IntroBadge + " " + pal.lightYellow("TRS") + " " + message + "\n\n"
  }

  function LocalLine(pal: Palette, addr: string): string {
    "  " + pal.dim("Local:") + "   " + FormatAddr(pal, addr) + "\n"
  }

  const NetworkDisabled: string := "  Network: (disabled, see --host)\n"

  /** `formatBootMessage(message, addresses)` (output-utils.js:79-93); None where the source
      throws, reading `replace` of the missing first address. */
  function FormatBootMessage(pal: Palette, message: string, addresses: seq<string>): (r: Option<string>)
    ensures r.None? <==> addresses == []
  {
    if addresses == [] then None
    else
      var network := if |addresses| > 1 then Join(NetworkLines(pal, addresses[1..]), "\n") + "\n"
                     else pal.dim(NetworkDisabled);
      Some(Intro(pal, message) + LocalLine(pal, addresses[0]) + network + "\n")
  }

  lemma {:induction false} NetworkLinesPointwise(pal: Palette, addrs: seq<string>)
    ensures forall i | 0 <= i < |addrs| ::
      NetworkLines(pal, addrs)[i] == "  " + pal.dim("Network:") + " " + FormatAddr(pal, addrs[i])
  {
    if addrs != [] {
      NetworkLinesPointwise(pal, addrs[1..]);
    }
  }

  /** The message is the intro, the Local line for the first address, then either one
      Network line per further address in order, or the disabled notice for a single
      address, and a closing blank line. */
  lemma BootMessageLayout(pal: Palette, message: string, addresses: seq<string>)
    requires addresses != []
    ensures |addresses| == 1 ==>
      FormatBootMessage(pal, message, addresses)
        == Some(Intro(pal, message) + LocalLine(pal, addresses[0]) + pal.dim(NetworkDisabled) + "\n")
    ensures |addresses| > 1 ==>
      exists lines: seq<string> ::
        && |lines| == |addresses| - 1
        && (forall i | 0 <= i < |lines| ::
              lines[i] == "  " + pal.dim("Network:") + " " + FormatAddr(pal, addresses[i + 1]))
        && FormatBootMessage(pal, message, addresses)
             == Some(Intro(pal, message) + LocalLine(pal, addresses[0]) + (Join(lines, "\n") + "\n") + "\n")
  {
    if |addresses| > 1 {
      var lines := NetworkLines(pal, addresses[1..]);
      NetworkLinesPointwise(pal, addresses[1..]);
      assert forall i | 0 <= i < |lines| :: lines[i] == "  " + pal.dim("Network:") + " " + FormatAddr(pal, addresses[i + 1]);
      assert FormatBootMessage(pal, message, addresses)
             == Some(Intro(pal, message) + LocalLine(pal, addresses[0]) + (Join(lines, "\n") + "\n") + "\n");
    }
  }
}
