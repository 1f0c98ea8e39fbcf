/** The configuration rules of packages/trs/src/lib/normalize-options.js: the deep merge of
    option objects, the plugin test, the dispatch of configuration results and plugin hooks,
    and the ordering of plugins by their `enforce` phase. */
module NormalizeOptions {
  import opened Strings

  /** A JavaScript value as configurations hold it. An object is a map from its own
      enumerable keys; a function is known by its source text. */
  datatype Value =
    | Undefined
    | Null
    | Bool(b: bool)
    | Num(n: int)
    | Str(s: string)
    | Arr(items: seq<Value>)
    | Obj(fields: map<string, Value>)
    | Func(source: string)

  type Object = map<string, Value>

  function Get(m: Object, k: string): Option<Value> {
    if k in m then Some(m[k]) else None
  }

  /** JavaScript truthiness (NaN is not modelled). */
  predicate Truthy(v: Value) {
    match v
    case Undefined => false
    case Null => false
    case Bool(b) => b
    case Num(n) => n != 0
    case Str(s) => s != ""
    case _ => true
  }

  /** `typeof v === 'object'` for a value that is not null. */
  predicate IsObject(v: Value) {
    v.Obj? || v.Arr?
  }

  /** The entries of an array, keyed by index. */
  function IndexEntries(items: seq<Value>): (r: Object)
    ensures forall k | k in r :: r[k] in items
  {
    if items == [] then map[]
    else
      var n := |items| - 1;
      IndexEntries(items[..n])[NatToString(n) := items[n]]
  }

  /** Index `i` of an array is the own key `String(i)`. */
  lemma {:induction false} IndexEntriesAt(items: seq<Value>, i: nat)
    requires i < |items|
    ensures NatToString(i) in IndexEntries(items) && IndexEntries(items)[NatToString(i)] == items[i]
  {
    var n := |items| - 1;
    if i < n {
      IndexEntriesAt(items[..n], i);
      if NatToString(i) == NatToString(n) { NatToStringInjective(i, n); }
    }
  }

  /** The characters of a string, keyed by index. */
  function CharEntries(s: string): (r: Object)
    ensures forall k | k in r :: r[k].Str? && |r[k].s| == 1
  {
    if s == [] then map[]
    else
      var n := |s| - 1;
      CharEntries(s[..n])[NatToString(n) := Str([s[n]])]
  }

  /** Index `i` of a string is the own key `String(i)`, holding its character. */
  lemma {:induction false} CharEntriesAt(s: string, i: nat)
    requires i < |s|
    ensures NatToString(i) in CharEntries(s) && CharEntries(s)[NatToString(i)] == Str([s[i]])
  {
    var n := |s| - 1;
    if i < n {
      CharEntriesAt(s[..n], i);
      assert s[..n][i] == s[i];
      if NatToString(i) == NatToString(n) { NatToStringInjective(i, n); }
    }
  }

  /** What `for...in`, `Object.keys` and the spread `{...v}` see of a value. */
  function OwnEntries(v: Value): (r: Object)
    ensures v.Obj? ==> r == v.fields
    ensures v.Arr? ==> forall k | k in r :: r[k] in v.items
    ensures v.Str? ==> forall k | k in r :: r[k].Str?
    ensures !v.Obj? && !v.Arr? && !v.Str? ==> r == map[]
  {
    match v
    case Obj(fields) => fields
    case Arr(items) => IndexEntries(items)
    case Str(s) => CharEntries(s)
    case _ => map[]
  }

  /** The entry of `mergeConfig(a, b)` at `key` (normalize-options.js:256-267): a `null` in
      `b` is skipped, two arrays concatenate, two objects merge deeply, and otherwise the
      value of `b` replaces the one of `a`. None means the key is absent. */
  function MergedEntry(a: Value, b: Value, key: string): Option<Value>
    decreases b, 0
  {
    var existing := Get(OwnEntries(a), key);
    var B := OwnEntries(b);
    if key !in B || B[key] == Null then existing
    else
      var value := B[key];
      if existing.Some? && existing.value.Arr? && value.Arr? then Some(Arr(existing.value.items + value.items))
      else if existing.Some? && IsObject(existing.value) && IsObject(value) then Some(Obj(MergeConfig(existing.value, value)))
      else Some(value)
  }

  /** `mergeConfig(a, b)` (normalize-options.js:251-271): a fresh object holding the
      merged entry of every key of either argument. */
  function MergeConfig(a: Value, b: Value): Object
    decreases b, 1
  {
    var keys := OwnEntries(a).Keys + OwnEntries(b).Keys;
    map k | k in keys && MergedEntry(a, b, k).Some? :: MergedEntry(a, b, k).value
  }

  lemma MergeConfigAt(a: Value, b: Value, k: string)
    ensures Get(MergeConfig(a, b), k) == MergedEntry(a, b, k)
  {
  }

  /** The merge, by properties of the two arguments alone. */
  lemma MergeConfigRules(a: Value, b: Value, k: string)
    ensures var A, B, R := OwnEntries(a), OwnEntries(b), MergeConfig(a, b);
      && (k in R <==> k in A || (k in B && B[k] != Null))
      && (k !in B || B[k] == Null ==> Get(R, k) == Get(A, k))
      && (k in B && k in A && A[k].Arr? && B[k].Arr? ==> R[k] == Arr(A[k].items + B[k].items))
      && (k in B && k in A && IsObject(A[k]) && IsObject(B[k]) && !(A[k].Arr? && B[k].Arr?) ==>
            R[k] == Obj(MergeConfig(A[k], B[k])))
      && (k in B && B[k] != Null && !(k in A && IsObject(A[k]) && IsObject(B[k])) ==> R[k] == B[k])
  {
    MergeConfigAt(a, b, k);
  }

  /** Merging nothing copies the first argument. */
  lemma MergeNothing(a: Value)
    ensures MergeConfig(a, Obj(map[])) == OwnEntries(a)
  {
    var R, A := MergeConfig(a, Obj(map[])), OwnEntries(a);
    forall k | k in A
      ensures k in R && R[k] == A[k]
    {
      MergeConfigAt(a, Obj(map[]), k);
    }
  }

  /** Merging into an empty object keeps exactly the entries of `b` that are not `null`. */
  lemma MergeIntoNothing(b: Value)
    ensures MergeConfig(Obj(map[]), b) == map k | k in OwnEntries(b) && OwnEntries(b)[k] != Null :: OwnEntries(b)[k]
  {
    var R, B := MergeConfig(Obj(map[]), b), OwnEntries(b);
    forall k | k in B && B[k] != Null
      ensures k in R && R[k] == B[k]
    {
      MergeConfigAt(Obj(map[]), b, k);
    }
  }

  /** Two maps that agree at every key are equal. */
  lemma GetExtensional(m1: Object, m2: Object)
    requires forall k :: Get(m1, k) == Get(m2, k)
    ensures m1 == m2
  {
    forall k | k in m1 ensures k in m2 && m1[k] == m2[k] {
      assert Get(m1, k) == Get(m2, k);
    }
    forall k | k in m2 ensures k in m1 {
      assert Get(m1, k) == Get(m2, k);
    }
  }

  /** The state of the loop in `mergeConfig` once the keys outside `pending` are done. */
  ghost predicate MergedExcept(a: Value, b: Value, merged: Object, pending: set<string>) {
    forall k :: Get(merged, k) == if k in OwnEntries(b) && k !in pending then MergedEntry(a, b, k) else Get(OwnEntries(a), k)
  }

  /** Completing one key keeps the loop state. */
  lemma MergeStep(a: Value, b: Value, merged: Object, next: Object, pending: set<string>, key: string)
    requires MergedExcept(a, b, merged, pending) && key in pending && key in OwnEntries(b)
    requires Get(next, key) == MergedEntry(a, b, key)
    requires forall k | k != key :: Get(next, k) == Get(merged, k)
    ensures MergedExcept(a, b, next, pending - {key})
  {
  }

  /** With every key done the loop has built the merge. */
  lemma MergeDone(a: Value, b: Value, merged: Object)
    requires MergedExcept(a, b, merged, {})
    ensures merged == MergeConfig(a, b)
  {
    forall k
      ensures Get(merged, k) == Get(MergeConfig(a, b), k)
    {
      MergeConfigAt(a, b, k);
    }
    GetExtensional(merged, MergeConfig(a, b));
  }

  /** `mergeConfig` as written: a copy of `a`, then one assignment per key of `b`. The keys
      are visited in an arbitrary order, as each is assigned once and independently. */
  method MergeConfigLoop(a: Value, b: Value) returns (merged: Object)
    ensures merged == MergeConfig(a, b)
    decreases b
  {
    var A, B := OwnEntries(a), OwnEntries(b);
    merged := A;
    var keys := B.Keys;
    while keys != {}
      invariant keys <= B.Keys
      invariant MergedExcept(a, b, merged, keys)
      decreases keys
    {
      var key :| key in keys;
      assert Get(merged, key) == Get(A, key);
      var value := B[key];
      if value == Null {
        MergeStep(a, b, merged, merged, keys, key);
        keys := keys - {key};
        continue;
      }
      var existing := Get(merged, key);
      var next;
      if existing.Some? && existing.value.Arr? && value.Arr? {
        next := Arr(existing.value.items + value.items);
      } else if existing.Some? && IsObject(existing.value) && IsObject(value) {
        var sub := MergeConfigLoop(existing.value, value);
        next := Obj(sub);
      } else {
        next := value;
      }
      MergeStep(a, b, merged, merged[key := next], keys, key);
      merged := merged[key := next];
      keys := keys - {key};
    }
    MergeDone(a, b, merged);
  }

  /** `isPlugin(x)` (normalize-options.js:13): some own key holds a function. */
  predicate IsPlugin(x: Value) {
    exists k | k in OwnEntries(x) :: OwnEntries(x)[k].Func?
  }

  /** An object is a plugin iff one of its fields holds a function, an array iff one of its
      items does; strings and other primitives never are. */
  lemma IsPluginIff(v: Value)
    ensures v.Obj? ==> (IsPlugin(v) <==> exists k | k in v.fields :: v.fields[k].Func?)
    ensures v.Arr? ==> (IsPlugin(v) <==> exists i | 0 <= i < |v.items| :: v.items[i].Func?)
    ensures !v.Obj? && !v.Arr? ==> !IsPlugin(v)
  {
    if v.Arr? {
      forall i | 0 <= i < |v.items| && v.items[i].Func?
        ensures IsPlugin(v)
      {
        IndexEntriesAt(v.items, i);
        assert OwnEntries(v)[NatToString(i)].Func?;
      }
      if IsPlugin(v) {
        var k :| k in OwnEntries(v) && OwnEntries(v)[k].Func?;
        assert OwnEntries(v)[k] in v.items;
      }
    } else if v.Obj? {
      assert OwnEntries(v) == v.fields;
    }
  }

  /** `String(v)`, as a template literal renders a plugin's name. */
  function Display(v: Value): string
    decreases v, 0
  {
    match v
    case Undefined => "undefined"
    case Null => "null"
    case Bool(b) => if b then "true" else "false"
    case Num(n) => IntToString(n)
    case Str(s) => s
    case Arr(items) => Join(seq(|items|, i requires 0 <= i < |items| => DisplayItem(items[i])), ",")
    case Obj(_) => "[object Object]"
    case Func(source) => source
  }

  /** An array element inside `String(array)`: `null` and `undefined` print as nothing. */
  function DisplayItem(v: Value): string
    decreases v, 1
  {
    if v.Undefined? || v.Null? then "" else Display(v)
  }

  /** `applyConfigResult(res)` (normalize-options.js:96-104) on the options `opts`. An array
      `plugins` takes `Array.prototype.concat`, which spreads an array result; a string
      `plugins` takes `String.prototype.concat`, which appends `String(res)`; None is the
      TypeError of `opts.plugins.concat` for any other `plugins`, which has no `concat`. */
  function ApplyConfigResult(opts: Object, res: Value): Option<Object> {
    if !Truthy(res) then Some(opts)
    else if res.Arr? || IsPlugin(res) then
      match Get(opts, "plugins")
      case Some(Arr(current)) => Some(opts["plugins" := Arr(current + (if res.Arr? then res.items else [res]))])
      case Some(Str(current)) => Some(opts["plugins" := Str(current + Display(res))])
      case _ => None
    else Some(MergeConfig(Obj(opts), res))
  }

  /** The three kinds of result, stated one by one. */
  lemma ApplyConfigResultCases(opts: Object, res: Value, current: seq<Value>, text: string)
    ensures !Truthy(res) ==> ApplyConfigResult(opts, res) == Some(opts)
    ensures Get(opts, "plugins") == Some(Arr(current)) && res.Arr? ==>
      ApplyConfigResult(opts, res) == Some(opts["plugins" := Arr(current + res.items)])
    ensures Get(opts, "plugins") == Some(Arr(current)) && !res.Arr? && IsPlugin(res) ==>
      ApplyConfigResult(opts, res) == Some(opts["plugins" := Arr(current + [res])])
    ensures Get(opts, "plugins") == Some(Str(text)) && Truthy(res) && (res.Arr? || IsPlugin(res)) ==>
      ApplyConfigResult(opts, res) == Some(opts["plugins" := Str(text + Display(res))])
    ensures Truthy(res) && !res.Arr? && !IsPlugin(res) ==> ApplyConfigResult(opts, res) == Some(MergeConfig(Obj(opts), res))
    ensures ApplyConfigResult(opts, res).None? <==>
      Truthy(res) && (res.Arr? || IsPlugin(res))
      && !(Get(opts, "plugins").Some? && (Get(opts, "plugins").value.Arr? || Get(opts, "plugins").value.Str?))
  {
  }

  /** How a run of a hook ends. */
  datatype HookOutcome = Completed(opts: Object) | Threw(message: string)

  /** `v[key]`: the own entry, or `undefined`. */
  function Property(v: Value, key: string): Value {
    var m := OwnEntries(v);
    if key in m then m[key] else Undefined
  }

  function PluginsMessage(plugin: Value, hook: string): string {
    "In plugin " + Display(Property(plugin, "name")) + ": Plugin method \"" + hook
    + "()\" must not return a \"plugins\" property."
  }

  const NotAFunction: string := "TypeError: plugin[name] is not a function"

  /** `runConfigHook(name, plugins)` (normalize-options.js:77-91): `call(plugin, name, opts)`
      is what the plugin's hook returns (after `await`) for the options at that moment. */
  function RunConfigHook(hook: string, plugins: seq<Value>, opts: Object, call: (Value, string, Object) -> Value): HookOutcome
  {
    if plugins == [] then Completed(opts)
    else
      var plugin := plugins[0];
      var hookFn := Get(OwnEntries(plugin), hook);
      if hookFn.None? || !Truthy(hookFn.value) then RunConfigHook(hook, plugins[1..], opts, call)
      else if !hookFn.value.Func? then Threw(NotAFunction)
      else
        var res := call(plugin, hook, opts);
        if !Truthy(res) then RunConfigHook(hook, plugins[1..], opts, call)
        else if Get(OwnEntries(res), "plugins").Some? && Truthy(Get(OwnEntries(res), "plugins").value) then
          Threw(PluginsMessage(plugin, hook))
        else RunConfigHook(hook, plugins[1..], MergeConfig(Obj(opts), res), call)
  }

  /** A plugin with the hook (as a function). */
  predicate HasHook(plugin: Value, hook: string) {
    var m := Get(OwnEntries(plugin), hook);
    m.Some? && m.value.Func?
  }

  /** Plugins without the hook are skipped: the run over them changes nothing. */
  lemma {:induction false} HooklessPluginsAreSkipped(hook: string, plugins: seq<Value>, opts: Object, call: (Value, string, Object) -> Value)
    requires forall i | 0 <= i < |plugins| :: Get(OwnEntries(plugins[i]), hook).None?
    ensures RunConfigHook(hook, plugins, opts, call) == Completed(opts)
  {
    if plugins != [] {
      HooklessPluginsAreSkipped(hook, plugins[1..], opts, call);
    }
  }

  /** The run over two lists of plugins is the run over the first, then the run over the
      second from where the first left the options. */
  lemma {:induction false} RunConfigHookAppend(hook: string, p: seq<Value>, q: seq<Value>, opts: Object, call: (Value, string, Object) -> Value)
    ensures RunConfigHook(hook, p + q, opts, call)
         == match RunConfigHook(hook, p, opts, call)
            case Completed(o) => RunConfigHook(hook, q, o, call)
            case Threw(m) => Threw(m)
  {
    if p == [] {
      assert p + q == q;
    } else {
      assert (p + q)[0] == p[0] && (p + q)[1..] == p[1..] + q;
      var plugin := p[0];
      var hookFn := Get(OwnEntries(plugin), hook);
      if hookFn.None? || !Truthy(hookFn.value) {
        RunConfigHookAppend(hook, p[1..], q, opts, call);
      } else if hookFn.value.Func? {
        var res := call(plugin, hook, opts);
        if !Truthy(res) {
          RunConfigHookAppend(hook, p[1..], q, opts, call);
        } else if !(Get(OwnEntries(res), "plugins").Some? && Truthy(Get(OwnEntries(res), "plugins").value)) {
          RunConfigHookAppend(hook, p[1..], q, MergeConfig(Obj(opts), res), call);
        }
      }
    }
  }

  /** A hook whose result carries `plugins` stops the run with an error naming the plugin and
      the hook, whatever plugins follow. */
  lemma PluginsResultThrows(hook: string, plugin: Value, rest: seq<Value>, opts: Object, call: (Value, string, Object) -> Value, name: string)
    requires HasHook(plugin, hook) && Get(OwnEntries(plugin), "name") == Some(Str(name))
    requires var res := call(plugin, hook, opts);
      Truthy(res) && Get(OwnEntries(res), "plugins").Some? && Truthy(Get(OwnEntries(res), "plugins").value)
    ensures RunConfigHook(hook, [plugin] + rest, opts, call)
         == Threw("In plugin " + name + ": Plugin method \"" + hook + "()\" must not return a \"plugins\" property.")
  {
    assert ([plugin] + rest)[0] == plugin;
  }

  /** The options and the hook dispatch of one `normalizeOptions` call. */
  class ConfigState {
    var opts: Object

    constructor (opts: Object)
      ensures this.opts == opts
    {
      this.opts := opts;
    }

    /** `applyConfigResult(res)`; `ok` is false when `opts.plugins` has no `concat` and the
        call would throw, and the options are then unchanged. */
    method ApplyResult(res: Value) returns (ok: bool)
      modifies this
      ensures ok <==> ApplyConfigResult(old(opts), res).Some?
      ensures opts == (if ok then ApplyConfigResult(old(opts), res).value else old(opts))
    {
      if Truthy(res) {
        if res.Arr? || IsPlugin(res) {
          var current := Get(opts, "plugins");
          if current.Some? && current.value.Arr? {
            opts := opts["plugins" := Arr(current.value.items + (if res.Arr? then res.items else [res]))];
          } else if current.Some? && current.value.Str? {
            opts := opts["plugins" := Str(current.value.s + Display(res))];
          } else {
            return false;
          }
        } else {
          opts := MergeConfigLoop(Obj(opts), res);
        }
      }
      return true;
    }

    /** `runConfigHook(hook, plugins)`: the loop over the plugins with `continue` for those
        without the hook; `thrown` is the error that ends it, if any. */
    method RunHook(hook: string, plugins: seq<Value>, call: (Value, string, Object) -> Value) returns (thrown: Option<string>)
      modifies this
      ensures RunConfigHook(hook, plugins, old(opts), call)
           == if thrown.Some? then Threw(thrown.value) else Completed(opts)
    {
      var i := 0;
      while i < |plugins|
        invariant 0 <= i <= |plugins|
        invariant RunConfigHook(hook, plugins[i..], opts, call) == RunConfigHook(hook, plugins, old(opts), call)
      {
        assert plugins[i..][0] == plugins[i] && plugins[i..][1..] == plugins[i + 1..];
        var plugin := plugins[i];
        var hookFn := Get(OwnEntries(plugin), hook);
        i := i + 1;
        if hookFn.None? || !Truthy(hookFn.value) {
          continue;
        }
        if !hookFn.value.Func? {
          return Some(NotAFunction);
        }
        var res := call(plugin, hook, opts);
        if Truthy(res) {
          var returned := Get(OwnEntries(res), "plugins");
          if returned.Some? && Truthy(returned.value) {
            return Some(PluginsMessage(plugin, hook));
          }
          opts := MergeConfigLoop(Obj(opts), res);
        }
      }
      assert plugins[i..] == [];
      return None;
    }
  }

  /** `[].flat()`: each array's items in place of the array, other values as they are. */
  function Flat(xs: seq<Value>): seq<Value> {
    if xs == [] then []
    else (if xs[0].Arr? then xs[0].items else [xs[0]]) + Flat(xs[1..])
  }

  lemma {:induction false} FlatAppend(a: seq<Value>, b: seq<Value>)
    ensures Flat(a + b) == Flat(a) + Flat(b)
  {
    if a == [] {
      assert a + b == b;
    } else {
      assert (a + b)[0] == a[0] && (a + b)[1..] == a[1..] + b;
      FlatAppend(a[1..], b);
    }
  }

  /** `.filter(Boolean)`: every truthy entry is kept, as often as it occurs, and nothing else. */
  function FilterTruthy(xs: seq<Value>): (r: seq<Value>)
    ensures forall i | 0 <= i < |r| :: Truthy(r[i])
    ensures forall x | Truthy(x) :: multiset(r)[x] == multiset(xs)[x]
    ensures forall x | !Truthy(x) :: multiset(r)[x] == 0
  {
    if xs == [] then []
    else
      var rest := FilterTruthy(xs[1..]);
      assert xs == [xs[0]] + xs[1..];
      if Truthy(xs[0]) then [xs[0]] + rest else rest
  }

  /** The filter keeps order: it distributes over concatenation. */
  lemma {:induction false} FilterTruthyAppend(a: seq<Value>, b: seq<Value>)
    ensures FilterTruthy(a + b) == FilterTruthy(a) + FilterTruthy(b)
  {
    if a != [] {
      assert (a + b)[0] == a[0] && (a + b)[1..] == a[1..] + b;
      FilterTruthyAppend(a[1..], b);
      assert [a[0]] + (FilterTruthy(a[1..]) + FilterTruthy(b)) == ([a[0]] + FilterTruthy(a[1..])) + FilterTruthy(b);
    } else {
      assert a + b == b;
    }
  }

  /** A single entry stays exactly when it is truthy. */
  lemma FilterTruthySingle(x: Value)
    ensures FilterTruthy([x]) == (if Truthy(x) then [x] else [])
  {
    assert [x][1..] == [];
  }

  /** The phase of a plugin: -1 for `enforce: 'pre'`, 1 for `'post'`, 0 otherwise
      (normalize-options.js:135-136). */
  function Score(p: Value): int {
    var e := Property(p, "enforce");
    if e == Str("post") then 1 else if e == Str("pre") then -1 else 0
  }

  /** A ranking into the three phases. */
  ghost predicate ThreeValued<T(!new)>(rank: T -> int) {
    forall x :: -1 <= rank(x) <= 1
  }

  lemma ScoreIsThreeValued()
    ensures ThreeValued(Score)
  {
  }

  /** The elements of one phase, in their order. */
  function Phase<T(!new)>(xs: seq<T>, rank: T -> int, c: int): seq<T>
  {
    if xs == [] then []
    else (if rank(xs[0]) == c then [xs[0]] else []) + Phase(xs[1..], rank, c)
  }

  /** Every element of a phase has that rank. */
  lemma {:induction false} PhaseRanks<T(!new)>(xs: seq<T>, rank: T -> int, c: int)
    ensures forall i | 0 <= i < |Phase(xs, rank, c)| :: rank(Phase(xs, rank, c)[i]) == c
  {
    if xs != [] {
      PhaseRanks(xs[1..], rank, c);
    }
  }

  /** Insert before the first element of the same or a later phase, which keeps the sort
      stable. */
  function InsertByRank<T(!new)>(x: T, s: seq<T>, rank: T -> int): seq<T> {
    if s == [] || rank(x) <= rank(s[0]) then [x] + s
    else [s[0]] + InsertByRank(x, s[1..], rank)
  }

  /** A stable sort by rank, as `Array.prototype.sort` with the comparator
      `rank(a) - rank(b)` is (normalize-options.js:134-138). */
  function SortByRank<T(!new)>(xs: seq<T>, rank: T -> int): seq<T> {
    if xs == [] then [] else InsertByRank(xs[0], SortByRank(xs[1..], rank), rank)
  }

  /** The plugin list of normalize-options.js:129-139. */
  function PluginOrder(plugins: seq<Value>): seq<Value> {
    SortByRank(FilterTruthy(Flat(plugins)), Score)
  }

  /** An element inserted into three consecutive phase blocks goes to the front of its own
      block. */
  lemma {:induction false} InsertIntoBlocks<T(!new)>(x: T, pre: seq<T>, normal: seq<T>, post: seq<T>, rank: T -> int)
    requires ThreeValued(rank) && rank(x) == 0
    requires forall i | 0 <= i < |pre| :: rank(pre[i]) == -1
    requires forall i | 0 <= i < |normal| :: rank(normal[i]) == 0
    requires forall i | 0 <= i < |post| :: rank(post[i]) == 1
    ensures InsertByRank(x, pre + normal + post, rank) == pre + ([x] + normal) + post
  {
    if pre != [] {
      var s := pre + normal + post;
      assert s[0] == pre[0] && s[1..] == pre[1..] + normal + post;
      InsertIntoBlocks(x, pre[1..], normal, post, rank);
      assert [pre[0]] + (pre[1..] + ([x] + normal) + post) == pre + ([x] + normal) + post;
    } else if normal != [] {
      assert pre + normal + post == normal + post;
    } else {
      assert pre + normal + post == post;
    }
  }

  lemma {:induction false} InsertIntoPre<T(!new)>(x: T, s: seq<T>, rank: T -> int)
    requires ThreeValued(rank) && rank(x) == -1
    ensures InsertByRank(x, s, rank) == [x] + s
  {
  }

  lemma {:induction false} InsertIntoPost<T(!new)>(x: T, pre: seq<T>, normal: seq<T>, post: seq<T>, rank: T -> int)
    requires ThreeValued(rank) && rank(x) == 1
    requires forall i | 0 <= i < |pre| :: rank(pre[i]) == -1
    requires forall i | 0 <= i < |normal| :: rank(normal[i]) == 0
    requires forall i | 0 <= i < |post| :: rank(post[i]) == 1
    ensures InsertByRank(x, pre + normal + post, rank) == pre + normal + ([x] + post)
  {
    var s := pre + normal + post;
    if pre != [] {
      assert s[0] == pre[0] && s[1..] == pre[1..] + normal + post;
      InsertIntoPost(x, pre[1..], normal, post, rank);
      assert [pre[0]] + (pre[1..] + normal + ([x] + post)) == pre + normal + ([x] + post);
    } else if normal != [] {
      assert s[0] == normal[0] && s[1..] == [] + normal[1..] + post;
      InsertIntoPost(x, [], normal[1..], post, rank);
      assert [normal[0]] + ([] + normal[1..] + ([x] + post)) == pre + normal + ([x] + post);
    } else {
      assert s == post;
    }
  }

  /** The sort is the concatenation of the three phases, each in its original order. */
  lemma {:induction false} SortIsPhaseConcat<T(!new)>(xs: seq<T>, rank: T -> int)
    requires ThreeValued(rank)
    ensures SortByRank(xs, rank) == Phase(xs, rank, -1) + Phase(xs, rank, 0) + Phase(xs, rank, 1)
  {
    if xs != [] {
      SortIsPhaseConcat(xs[1..], rank);
      SortStep(xs[0], xs[1..], rank);
      assert xs == [xs[0]] + xs[1..];
    }
  }

  lemma SortStep<T(!new)>(x: T, t: seq<T>, rank: T -> int)
    requires ThreeValued(rank)
    requires SortByRank(t, rank) == Phase(t, rank, -1) + Phase(t, rank, 0) + Phase(t, rank, 1)
    ensures SortByRank([x] + t, rank) == Phase([x] + t, rank, -1) + Phase([x] + t, rank, 0) + Phase([x] + t, rank, 1)
  {
    var xs := [x] + t;
    assert xs[0] == x && xs[1..] == t;
    var a, b, c := Phase(t, rank, -1), Phase(t, rank, 0), Phase(t, rank, 1);
    PhaseRanks(t, rank, -1);
    PhaseRanks(t, rank, 0);
    PhaseRanks(t, rank, 1);
    assert SortByRank(xs, rank) == InsertByRank(x, a + b + c, rank);
    if rank(x) == -1 {
      StepPre(x, t, rank);
    } else if rank(x) == 0 {
      StepNormal(x, t, rank);
    } else {
      StepPost(x, t, rank);
    }
  }

  lemma PhaseCons<T(!new)>(x: T, t: seq<T>, rank: T -> int, c: int)
    ensures Phase([x] + t, rank, c) == if rank(x) == c then [x] + Phase(t, rank, c) else Phase(t, rank, c)
  {
    var xs := [x] + t;
    assert xs[0] == x && xs[1..] == t;
    assert [] + Phase(t, rank, c) == Phase(t, rank, c);
  }

  lemma StepPre<T(!new)>(x: T, t: seq<T>, rank: T -> int)
    requires ThreeValued(rank) && rank(x) == -1
    ensures InsertByRank(x, Phase(t, rank, -1) + Phase(t, rank, 0) + Phase(t, rank, 1), rank) == Phase([x] + t, rank, -1) + Phase([x] + t, rank, 0) + Phase([x] + t, rank, 1)
  {
    var a, b, c := Phase(t, rank, -1), Phase(t, rank, 0), Phase(t, rank, 1);
    PhaseCons(x, t, rank, -1);
    PhaseCons(x, t, rank, 0);
    PhaseCons(x, t, rank, 1);
    InsertIntoPre(x, a + b + c, rank);
    calc {
      Phase([x] + t, rank, -1) + Phase([x] + t, rank, 0) + Phase([x] + t, rank, 1);
      ([x] + a) + b + c;
      { SeqAssoc3(x, a, b, c); }
      [x] + (a + b + c);
    }
  }

  /** Regrouping a concatenation. */
  lemma SeqAssoc3<T>(x: T, a: seq<T>, b: seq<T>, c: seq<T>)
    ensures ([x] + a) + b + c == [x] + (a + b + c)
  {
  }

  lemma StepNormal<T(!new)>(x: T, t: seq<T>, rank: T -> int)
    requires ThreeValued(rank) && rank(x) == 0
    ensures InsertByRank(x, Phase(t, rank, -1) + Phase(t, rank, 0) + Phase(t, rank, 1), rank) == Phase([x] + t, rank, -1) + Phase([x] + t, rank, 0) + Phase([x] + t, rank, 1)
  {
    var xs := [x] + t;
    assert xs[0] == x && xs[1..] == t;
    var a, b, c := Phase(t, rank, -1), Phase(t, rank, 0), Phase(t, rank, 1);
    PhaseRanks(t, rank, -1);
    PhaseRanks(t, rank, 0);
    PhaseRanks(t, rank, 1);
    InsertIntoBlocks(x, a, b, c, rank);
  }

  lemma StepPost<T(!new)>(x: T, t: seq<T>, rank: T -> int)
    requires ThreeValued(rank) && rank(x) == 1
    ensures InsertByRank(x, Phase(t, rank, -1) + Phase(t, rank, 0) + Phase(t, rank, 1), rank) == Phase([x] + t, rank, -1) + Phase([x] + t, rank, 0) + Phase([x] + t, rank, 1)
  {
    var xs := [x] + t;
    assert xs[0] == x && xs[1..] == t;
    var a, b, c := Phase(t, rank, -1), Phase(t, rank, 0), Phase(t, rank, 1);
    PhaseRanks(t, rank, -1);
    PhaseRanks(t, rank, 0);
    PhaseRanks(t, rank, 1);
    InsertIntoPost(x, a, b, c, rank);
  }
  /** Inserting adds exactly the one element. */
  lemma {:induction false} InsertMultiset<T(!new)>(x: T, s: seq<T>, rank: T -> int)
    ensures multiset(InsertByRank(x, s, rank)) == multiset{x} + multiset(s)
  {
    if !(s == [] || rank(x) <= rank(s[0])) {
      InsertMultiset(x, s[1..], rank);
      assert s == [s[0]] + s[1..];
    }
  }

  /** The sort neither loses nor duplicates an element. */
  lemma {:induction false} SortMultiset<T(!new)>(xs: seq<T>, rank: T -> int)
    ensures multiset(SortByRank(xs, rank)) == multiset(xs)
  {
    if xs != [] {
      SortMultiset(xs[1..], rank);
      InsertMultiset(xs[0], SortByRank(xs[1..], rank), rank);
      assert xs == [xs[0]] + xs[1..];
    }
  }

  /** The rank at each position of three concatenated phases. */
  lemma PhaseConcatRanks<T(!new)>(a: seq<T>, b: seq<T>, c: seq<T>, rank: T -> int, i: int)
    requires forall k | 0 <= k < |a| :: rank(a[k]) == -1
    requires forall k | 0 <= k < |b| :: rank(b[k]) == 0
    requires forall k | 0 <= k < |c| :: rank(c[k]) == 1
    requires 0 <= i < |a| + |b| + |c|
    ensures rank((a + b + c)[i]) == if i < |a| then -1 else if i < |a| + |b| then 0 else 1
  {
    if i < |a| {
      assert (a + b + c)[i] == a[i];
    } else if i < |a| + |b| {
      assert (a + b + c)[i] == b[i - |a|];
    } else {
      assert (a + b + c)[i] == c[i - |a| - |b|];
    }
  }

  /** The sorted list is ordered by rank and is a permutation of its input. */
  lemma SortSortedPermutation<T(!new)>(xs: seq<T>, rank: T -> int)
    requires ThreeValued(rank)
    ensures var r := SortByRank(xs, rank);
      (forall i, j | 0 <= i < j < |r| :: rank(r[i]) <= rank(r[j])) && multiset(r) == multiset(xs)
  {
    SortIsPhaseConcat(xs, rank);
    SortMultiset(xs, rank);
    var a, b, c := Phase(xs, rank, -1), Phase(xs, rank, 0), Phase(xs, rank, 1);
    var r := a + b + c;
    PhaseRanks(xs, rank, -1);
    PhaseRanks(xs, rank, 0);
    PhaseRanks(xs, rank, 1);
    forall i, j | 0 <= i < j < |r|
      ensures rank(r[i]) <= rank(r[j])
    {
      PhaseConcatRanks(a, b, c, rank, i);
      PhaseConcatRanks(a, b, c, rank, j);
    }
  }

  /** The final list: only truthy entries, pre-phase plugins first and post-phase last, each
      phase in the order of the flattened list. */
  lemma PluginOrderPhases(plugins: seq<Value>)
    ensures var f := FilterTruthy(Flat(plugins)); var r := PluginOrder(plugins);
      && r == Phase(f, Score, -1) + Phase(f, Score, 0) + Phase(f, Score, 1)
      && (forall i | 0 <= i < |r| :: Truthy(r[i]))
      && multiset(r) == multiset(f)
  {
    var f := FilterTruthy(Flat(plugins));
    ScoreIsThreeValued();
    SortIsPhaseConcat(f, Score);
    SortSortedPermutation(f, Score);
    var r := PluginOrder(plugins);
    forall i | 0 <= i < |r|
      ensures Truthy(r[i])
    {
      InMultisetIsElement(r[i], f);
    }
  }

  lemma InMultisetIsElement<T>(x: T, s: seq<T>)
    requires x in multiset(s)
    ensures exists j | 0 <= j < |s| :: s[j] == x
  {
    assert x in s;
  }
}
