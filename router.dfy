/** The command router: registration, the global-flag prefilter, help detection, handler
    lookup with its typo fallback, and the split of the remaining arguments into a request. */
module Router {
  import opened Base
  import opened Trie
  import opened Prefilter
  import opened Resolver
  import opened Similar
  import opened Partition
  import opened Request
  import opened EditDistance

  /** `CliHandler`: what a route resolves to. */
  datatype CliHandler = CliHandler(alias: string, shortcuts: seq<string>, valueFlags: seq<string>)

  datatype CliCategory = CliCategory(alias: string, title: string, description: string)

  /** What `is_help` leads to: a help screen, which ends the process, or routing onward with
      the help marker and the arguments left. */
  datatype HelpCheck = RenderIndex | RenderCategory(alias: string) | Proceed(isHelp: bool, args: seq<string>)

  /** What `lookup` leads to. The version message and the help screens end the process. */
  datatype Route =
    | PrintVersion(message: string)
    | HelpIndex
    | HelpCategory(alias: string)
    | NoRoute
    | Routed(request: CliRequest, command: string)

  /** What `has_global` and `get_global` lead to: the answer, or the version exit of the
      prefilter they may run first. */
  datatype Answer<T> = Exited(message: string) | Answer(value: T)

  /** `lookup_handler`'s result and the arguments it leaves. */
  datatype Resolution = Resolution(handler: Option<CliHandler>, rest: seq<string>)

  function Get<K, V>(m: map<K, V>, k: K): (r: Option<V>)
    ensures r.Some? <==> k in m
    ensures r.Some? ==> r.value == m[k]
  {
    if k in m then Some(m[k]) else None
  }

  /** `order` lists each key of `commands` exactly once: the hash map's iteration order. */
  ghost predicate IsEnumeration(order: seq<string>, commands: set<string>)
  {
    (forall i, j :: 0 <= i < j < |order| ==> order[i] != order[j])
    && (forall c :: c in order <==> c in commands)
  }

  /** The registry's invariant: each handler carries its key lowered, which names a command;
      command names are lowercase; the aliases stored in the tree are lowercase. */
  ghost predicate RegistryValid(root: Node, handlers: map<string, CliHandler>, commands: set<string>)
  {
    (forall k :: k in handlers ==> handlers[k].alias == Lower(k) && Lower(k) in commands)
    && (forall c :: c in commands ==> IsLower(c))
    && (forall p :: HandlerAt(root, p).Some? ==> IsLower(HandlerAt(root, p).value))
  }

  /** The global descriptors' invariant: nothing marks a flag as present, and only
      value-bearing flags carry a value. */
  predicate FlagsValid(flags: seq<GlobalFlag>)
  {
    forall i :: 0 <= i < |flags| ==> !flags[i].has && (flags[i].value.Some? ==> flags[i].isValue)
  }

  lemma PrefilterKeepsFlagsValid(argv: seq<string>, ignore: map<string, bool>, flags: seq<GlobalFlag>, vm: string)
    requires FlagsValid(flags)
    ensures FlagsValid(FilterArgv(argv, ignore, flags, vm).flags)
  {
    FilterFrame(Tail(argv), ignore, flags, vm);
  }

  /** The registered paths of a command: its alias and each shortcut, split into words. */
  function Paths(queue: seq<string>): (ps: seq<seq<string>>)
    ensures |ps| == |queue|
    ensures forall i :: 0 <= i < |queue| ==> ps[i] == SplitWhitespace(queue[i])
  {
    seq(|queue|, i requires 0 <= i < |queue| => SplitWhitespace(queue[i]))
  }

  /** `is_help`: a leading `help` or `-h` is removed; alone it renders the index, followed by
      a category's name it renders that category, and otherwise routing goes on with the
      help marker set. */
  function HelpOf(categories: map<string, CliCategory>, args: seq<string>): (r: HelpCheck)
    requires |args| > 0
    ensures (args[0] == "help" || args[0] == "-h") <==> !(r.Proceed? && !r.isHelp)
    ensures r.Proceed? && !r.isHelp ==> r.args == args
    ensures r.RenderIndex? <==> |args| == 1 && (args[0] == "help" || args[0] == "-h")
    ensures r.RenderCategory? ==> |args| > 1 && r.alias == Join(args[1..], " ") && r.alias in categories
    ensures r.Proceed? && r.isHelp ==> |args| > 1 && r.args == args[1..] && Join(args[1..], " ") !in categories
  {
    if args[0] == "help" || args[0] == "-h" then
      if |args| == 1 then RenderIndex
      else if Join(args[1..], " ") in categories then RenderCategory(Join(args[1..], " "))
      else Proceed(true, args[1..])
    else Proceed(false, args)
  }

  /** `lookup_handler` over the tree `root`: the walk's handler with the walked span drained,
      or else the typo fallback over the commands in `sorted` order. */
  function Resolve(root: Node, handlers: map<string, CliHandler>, args: seq<string>,
                   sorted: seq<string>, accept: string -> bool): Resolution
  {
    var s := Scan(root, args);
    if s.hAlias.Some? then
      ScanHit(root, args);
      Resolution(Get(handlers, s.hAlias.value), Drain(args, s.start, s.start + s.length))
    else
      var fb := SimilarOf(args, sorted, accept);
      Resolution(if fb.found.Some? then Get(handlers, fb.found.value) else None, fb.rest)
  }

  /** `lookup` after the prefilter: help detection, handler lookup, and the flag split. */
  function RouteOf(root: Node, handlers: map<string, CliHandler>, categories: map<string, CliCategory>,
                   raw: RawArgs, sorted: seq<string>, accept: string -> bool): Route
    requires raw.Args? ==> |raw.tokens| > 0
  {
    if raw.VersionShown? then PrintVersion(raw.message)
    else if raw.NoArgs? then NoRoute
    else
      var help := HelpOf(categories, raw.tokens);
      if help.RenderIndex? then HelpIndex
      else if help.RenderCategory? then HelpCategory(help.alias)
      else
        var res := Resolve(root, handlers, help.args, sorted, accept);
        if res.handler.None? then NoRoute
        else
          var h := res.handler.value;
          var p := Split(res.rest, h.valueFlags);
          Routed(CliRequest(h.alias, help.isHelp, p.args, p.flags, p.values, h.shortcuts), h.alias)
  }

  /** A handler that lookup returns is registered under its own alias, and that alias names a
      command, so the command lookup in `lookup` cannot fail. */
  lemma ResolveRegistered(root: Node, handlers: map<string, CliHandler>, commands: set<string>,
                          args: seq<string>, sorted: seq<string>, accept: string -> bool)
    requires RegistryValid(root, handlers, commands)
    requires forall k :: 0 <= k < |sorted| ==> sorted[k] in commands
    requires NonIncreasing(sorted)
    ensures var res := Resolve(root, handlers, args, sorted, accept);
      res.handler.Some? ==>
        res.handler.value.alias in commands
        && res.handler.value.alias in handlers
        && handlers[res.handler.value.alias] == res.handler.value
  {
    var s := Scan(root, args);
    if s.hAlias.Some? {
      ScanHit(root, args);
      LastHandlerStored(root, s.path);
      var q :| HandlerAt(root, q) == s.hAlias;
      assert Lower(s.hAlias.value) == s.hAlias.value;
    } else {
      SimilarOfCorrect(args, sorted, accept);
      var fb := SimilarOf(args, sorted, accept);
      if fb.found.Some? {
        assert Lower(fb.found.value) == fb.found.value;
      }
    }
  }

  /** Typing exactly the words of a registered lowercase path finds its handler and leaves
      no arguments over. */
  lemma ResolveExact(root: Node, handlers: map<string, CliHandler>, segs: seq<string>, a: string,
                     sorted: seq<string>, accept: string -> bool)
    requires |segs| > 0
    requires forall i :: 0 <= i < |segs| ==> !IsFlag(segs[i]) && IsLower(segs[i])
    requires HandlerAt(root, segs) == Some(a) && a in handlers
    ensures Resolve(root, handlers, segs, sorted, accept) == Resolution(Some(handlers[a]), [])
  {
    ScanExactPath(root, segs, a);
  }

  /** When no top-level segment of the tree is lowercase, as after registering only aliases
      with a capital first letter, the walk never matches: such commands are unreachable
      by their own name. */
  lemma {:induction false} UpperCaseNeverMatches(root: Node, args: seq<string>, pos: nat)
    requires pos <= |args|
    requires forall k :: k in root.children ==> !IsLower(k)
    ensures ScanFrom(root, args, pos, Initial(root)) == Initial(root)
    decreases |args| - pos
  {
    if pos < |args| {
      var tok := args[pos];
      if !IsFlag(tok) {
        LowerIsLower(tok);
      }
      assert Step(root, Initial(root), pos, tok) == Initial(root);
      UpperCaseNeverMatches(root, args, pos + 1);
    }
  }

  /** The walk drains as many tokens as it matched segments, counted from the first of them:
      with `db migrate` registered, a flag between the two words is drained in place of
      `migrate`, which is left behind as a positional argument. */
  lemma InterleavedFlagDrained(h: CliHandler, accept: string -> bool)
    ensures Resolve(Insert(Empty, ["db", "migrate"], "db migrate"), map["db migrate" := h],
                    ["db", "-x", "migrate", "a"], [], accept)
         == Resolution(Some(h), ["migrate", "a"])
  {
    var args := ["db", "-x", "migrate", "a"];
    var mig := Node(map[], Some("db migrate"));
    var db := Node(map["migrate" := mig], None);
    var root := Node(map["db" := db], None);
    assert Insert(Empty, ["db", "migrate"], "db migrate") == root by {
      assert ["db", "migrate"][1..] == ["migrate"];
      assert ["migrate"][1..] == [];
    }
    assert Lower("db") == "db";
    assert Lower("migrate") == "migrate";
    assert Lower("a") == "a";
    var s1 := ScanState(db, 0, 1, None, false, ["db"], 1);
    var s2 := ScanState(mig, 0, 2, Some("db migrate"), false, ["db", "migrate"], 3);
    assert Step(root, Initial(root), 0, "db") == s1;
    assert Step(root, s1, 1, "-x") == s1;
    assert Step(root, s1, 2, "migrate") == s2;
    assert Step(root, s2, 3, "a") == s2.(stopped := true);
    assert ScanFrom(root, args, 4, s2.(stopped := true)) == s2.(stopped := true);
    assert ScanFrom(root, args, 3, s2) == s2.(stopped := true);
    assert ScanFrom(root, args, 2, s1) == s2.(stopped := true);
    assert ScanFrom(root, args, 1, s1) == s2.(stopped := true);
    assert Scan(root, args) == s2.(stopped := true);
    assert Drain(args, 0, 2) == ["migrate", "a"];
  }

  /** The tree after registering a one-word alias `a` with the shortcut `b`: both paths carry
      the lowered alias `h`. */
  lemma AliasAndShortcutTree(a: string, h: string)
    requires IsSegment(a) && a != "b"
    ensures InsertAll(Empty, Paths([a, "b"]), h)
         == Node(map[a := Node(map[], Some(h)), "b" := Node(map[], Some(h))], None)
  {
    SplitJoinRoundTrip([a]);
    SplitJoinRoundTrip(["b"]);
    assert Join([a], " ") == a;
    assert Paths([a, "b"]) == [[a], ["b"]];
    assert [a][1..] == [] && ["b"][1..] == [];
    assert [[a], ["b"]][1..] == [["b"]] && [["b"]][1..] == [];
  }

  lemma BuildResolve(h: CliHandler, accept: string -> bool)
    ensures var leaf := Node(map[], Some("build"));
      Resolve(Node(map["build" := leaf, "b" := leaf], None), map["build" := h],
              ["b", "--out", "dist", "-v", "src"], [], accept)
      == Resolution(Some(h), ["--out", "dist", "-v", "src"])
  {
    var args := ["b", "--out", "dist", "-v", "src"];
    var leaf := Node(map[], Some("build"));
    var root := Node(map["build" := leaf, "b" := leaf], None);
    assert Lower("b") == "b";
    var s1 := ScanState(leaf, 0, 1, Some("build"), false, ["b"], 1);
    assert Step(root, Initial(root), 0, "b") == s1;
    assert Step(root, s1, 1, "--out") == s1;
    assert Step(root, s1, 2, "dist") == s1.(stopped := true);
    assert ScanFrom(root, args, 3, s1.(stopped := true)) == s1.(stopped := true);
    assert ScanFrom(root, args, 1, s1) == s1.(stopped := true);
    assert Scan(root, args) == s1.(stopped := true);
    assert Drain(args, 0, 1) == ["--out", "dist", "-v", "src"];
  }

  lemma BuildSplit()
    ensures Split(["--out", "dist", "-v", "src"], ["--out"]) == Partitioned(["src"], ["-v"], map["--out" := "dist"])
  {
    var rest := ["--out", "dist", "-v", "src"];
    assert rest[2..] == ["-v", "src"] && ["-v", "src"][1..] == ["src"];
    assert !StartsWith("-v", "--") by { assert "-v"[..2][1] == 'v'; }
    assert Expand("-v") == ["-v"];
    SplitNoFlags(["src"], ["--out"]);
    assert map["--out" := "dist"] + map[] == map["--out" := "dist"];
  }

  /** Handlers are stored under the alias as given but looked up under its lowered form: with
      `Build` registered under the shortcut `b`, typing `b` walks to the handler alias `build`
      and then finds no handler. */
  lemma MixedCaseAliasUnroutable(sorted: seq<string>, accept: string -> bool)
    ensures Resolve(InsertAll(Empty, Paths(["Build", "b"]), "build"), map["Build" := CliHandler("build", ["b"], [])],
                    ["b"], sorted, accept).handler.None?
  {
    var leaf := Node(map[], Some("build"));
    var root := Node(map["Build" := leaf, "b" := leaf], None);
    assert InsertAll(Empty, Paths(["Build", "b"]), "build") == root by {
      assert IsSegment("Build");
      AliasAndShortcutTree("Build", "build");
    }
    assert Lower("b") == "b";
    var s1 := ScanState(leaf, 0, 1, Some("build"), false, ["b"], 1);
    assert Step(root, Initial(root), 0, "b") == s1;
    assert Scan(root, ["b"]) == s1;
    assert "build" != "Build" by { assert "build"[0] != "Build"[0]; }
  }

  /** A token that breaks a partial match is not tried again from the root: with `db migrate`
      and `x` registered, `db x` finds no handler in the tree and goes to the typo fallback. */
  lemma MismatchNotRetried()
    ensures Scan(Insert(Insert(Empty, ["db", "migrate"], "db migrate"), ["x"], "x"), ["db", "x"]).hAlias.None?
  {
    var args := ["db", "x"];
    var db := Node(map["migrate" := Node(map[], Some("db migrate"))], None);
    var root := Node(map["db" := db, "x" := Node(map[], Some("x"))], None);
    assert Insert(Insert(Empty, ["db", "migrate"], "db migrate"), ["x"], "x") == root by {
      assert ["db", "migrate"][1..] == ["migrate"];
      assert ["migrate"][1..] == [] && ["x"][1..] == [];
    }
    assert Lower("db") == "db" && Lower("x") == "x";
    var s1 := ScanState(db, 0, 1, None, false, ["db"], 1);
    assert Step(root, Initial(root), 0, "db") == s1;
    assert Step(root, s1, 1, "x") == s1.(node := root, length := 0, path := []);
    assert ScanFrom(root, args, 1, s1) == s1.(node := root, length := 0, path := []);
  }

  /** A shortcut routes to its command, a value flag takes the token after it, a short flag
      is kept as a flag and the rest is positional: `b --out dist -v src`, with `build`
      registered under the shortcut `b` and the value flag `--out`. */
  lemma ShortcutRouteExample(accept: string -> bool)
    ensures var h := CliHandler("build", ["b"], ["--out"]);
      RouteOf(InsertAll(Empty, Paths(["build", "b"]), "build"), map["build" := h], map[],
              Args(["b", "--out", "dist", "-v", "src"]), [], accept)
      == Routed(CliRequest("build", false, ["src"], ["-v"], map["--out" := "dist"], ["b"]), "build")
  {
    var h := CliHandler("build", ["b"], ["--out"]);
    var leaf := Node(map[], Some("build"));
    assert InsertAll(Empty, Paths(["build", "b"]), "build") == Node(map["build" := leaf, "b" := leaf], None) by {
      assert IsSegment("build");
      AliasAndShortcutTree("build", "build");
    }
    BuildResolve(h, accept);
    BuildSplit();
  }

  /** What a routed request carries: the alias of the handler registered under it, that
      handler's shortcuts, positional arguments that are not flags, and flag values only
      for the handler's declared value flags. */
  lemma RoutedRequest(root: Node, handlers: map<string, CliHandler>, commands: set<string>,
                      categories: map<string, CliCategory>, raw: RawArgs, sorted: seq<string>,
                      accept: string -> bool)
    requires RegistryValid(root, handlers, commands)
    requires forall k :: 0 <= k < |sorted| ==> sorted[k] in commands
    requires NonIncreasing(sorted)
    requires raw.Args? ==> |raw.tokens| > 0
    ensures var r := RouteOf(root, handlers, categories, raw, sorted, accept);
      r.Routed? ==>
        r.command == r.request.cmdAlias
        && r.command in commands
        && r.command in handlers
        && r.request.shortcuts == handlers[r.command].shortcuts
        && (forall k :: 0 <= k < |r.request.args| ==> !IsFlag(r.request.args[k]))
        && (forall f :: f in r.request.flagValues ==> f in handlers[r.command].valueFlags)
        && (raw.Args? && r.request.isHelp ==> raw.tokens[0] == "help" || raw.tokens[0] == "-h")
  {
    if raw.Args? {
      var help := HelpOf(categories, raw.tokens);
      if help.Proceed? {
        ResolveRegistered(root, handlers, commands, help.args, sorted, accept);
        var res := Resolve(root, handlers, help.args, sorted, accept);
        if res.handler.Some? {
          SplitShape(res.rest, res.handler.value.valueFlags);
        }
      }
    }
  }

  /** Registering a command keeps the registry's invariant. */
  lemma AddKeepsValid(root: Node, handlers: map<string, CliHandler>, commands: set<string>,
                      alias: string, paths: seq<seq<string>>, h: CliHandler)
    requires RegistryValid(root, handlers, commands)
    requires h.alias == Lower(alias)
    ensures RegistryValid(InsertAll(root, paths, Lower(alias)), handlers[alias := h], commands + {Lower(alias)})
  {
    LowerIsLower(alias);
    forall p | HandlerAt(InsertAll(root, paths, Lower(alias)), p).Some?
      ensures IsLower(HandlerAt(InsertAll(root, paths, Lower(alias)), p).value)
    {
      InsertAllHandlerAt(root, paths, Lower(alias), p);
    }
  }

  /** One pass of the outer loop of `add`. */
  lemma InsertAllStep(n: Node, queue: seq<string>, i: nat, h: string)
    requires i < |queue|
    ensures InsertAll(Insert(n, SplitWhitespace(queue[i]), h), Paths(queue[i + 1..]), h) == InsertAll(n, Paths(queue[i..]), h)
  {
    assert Paths(queue[i..]) == [SplitWhitespace(queue[i])] + Paths(queue[i + 1..]);
  }

  lemma InsertAllHandlers(n: Node, ps: seq<seq<string>>, h: string)
    ensures forall q :: HandlerAt(InsertAll(n, ps, h), q) == if q in ps then Some(h) else HandlerAt(n, q)
  {
    forall q ensures HandlerAt(InsertAll(n, ps, h), q) == if q in ps then Some(h) else HandlerAt(n, q) {
      InsertAllHandlerAt(n, ps, h, q);
    }
  }

  /** The sorted enumeration of the command table is in non-increasing word count and holds
      only command names. */
  lemma SortedCommands(order: seq<string>, commands: set<string>)
    requires IsEnumeration(order, commands)
    ensures NonIncreasing(SortByWordCount(order))
    ensures forall k :: 0 <= k < |SortByWordCount(order)| ==> SortByWordCount(order)[k] in commands
  {
    SortByWordCountCorrect(order);
    var s := SortByWordCount(order);
    forall k | 0 <= k < |s| ensures s[k] in commands {
      assert s[k] in multiset(s);
    }
  }

  /** The prefilter's result, given the tokens kept so far and the filter of the rest. */
  function Resume(kept: seq<string>, rest: Filtered): Filtered
  {
    rest.(kept := kept + rest.kept)
  }

  /** The filter of the tokens `ts` still to come, given whether the first of them is to be
      skipped and which descriptor, if any, takes it as its value. */
  function Pending(ts: seq<string>, skip: bool, index: Option<nat>, flags: seq<GlobalFlag>,
                   ignore: map<string, bool>, vm: string): Filtered
    requires index.Some? ==> index.value < |flags|
  {
    if skip then
      if ts == [] then Filtered([], flags, false)
      else
        var flags' := if index.Some? then flags[index.value := flags[index.value].(value := Some(ts[0]))] else flags;
        FilterTokens(ts[1..], ignore, flags', vm)
    else FilterTokens(ts, ignore, flags, vm)
  }

  /** How the pending filter advances over a token that is not skipped. */
  lemma PendingStep(ts: seq<string>, flags: seq<GlobalFlag>, ignore: map<string, bool>, vm: string)
    requires ts != []
    ensures IsVersionToken(ts[0]) && vm != "" ==>
      Pending(ts, false, None, flags, ignore, vm) == Filtered([], flags, true)
    ensures !(IsVersionToken(ts[0]) && vm != "") && ts[0] in ignore ==>
      Pending(ts, false, None, flags, ignore, vm) == Pending(ts[1..], ignore[ts[0]], None, flags, ignore, vm)
    ensures !(IsVersionToken(ts[0]) && vm != "") && ts[0] !in ignore && FindGlobal(flags, ts[0]).Some? ==>
      var g := FindGlobal(flags, ts[0]).value;
      Pending(ts, false, None, flags, ignore, vm)
        == Pending(ts[1..], flags[g].isValue, if flags[g].isValue then Some(g) else None, flags, ignore, vm)
    ensures !(IsVersionToken(ts[0]) && vm != "") && ts[0] !in ignore && FindGlobal(flags, ts[0]).None? ==>
      Pending(ts, false, None, flags, ignore, vm) == Resume([ts[0]], Pending(ts[1..], false, None, flags, ignore, vm))
  {
    if |ts| > 1 {
      assert ts[1..][1..] == ts[2..] && ts[1..][0] == ts[1];
    } else {
      assert ts[1..] == [];
      assert FilterTokens([], ignore, flags, vm) == Filtered([], flags, false);
    }
  }

  /** A skipped token is dropped, or taken as the value of the descriptor waiting for one. */
  lemma PendingSkip(ts: seq<string>, index: Option<nat>, flags: seq<GlobalFlag>, ignore: map<string, bool>, vm: string)
    requires ts != [] && (index.Some? ==> index.value < |flags|)
    ensures Pending(ts, true, index, flags, ignore, vm)
         == Pending(ts[1..], false, None, if index.Some? then flags[index.value := flags[index.value].(value := Some(ts[0]))] else flags, ignore, vm)
  {
  }

  lemma ResumeKeep(kept: seq<string>, t: string, rest: Filtered)
    ensures Resume(kept, Resume([t], rest)) == Resume(kept + [t], rest)
  {
    assert kept + ([t] + rest.kept) == kept + [t] + rest.kept;
  }

  /** The split of the arguments from `pos` on, given whether the one before was a value
      flag waiting for its value. */
  function Remaining(args: seq<string>, pos: nat, inclValue: bool, valueFlags: seq<string>): Partitioned
    requires pos <= |args| && (inclValue ==> pos > 0)
  {
    if inclValue then
      if pos < |args| then
        var r := Split(args[pos + 1..], valueFlags);
        r.(values := map[args[pos - 1] := args[pos]] + r.values)
      else Partitioned([], [], map[])
    else Split(args[pos..], valueFlags)
  }

  /** The token after a value flag becomes that flag's value. */
  lemma GatherValue(args: seq<string>, pos: nat, vf: seq<string>, acc: Partitioned)
    requires 0 < pos < |args|
    ensures Combine(acc, Remaining(args, pos, true, vf))
         == Combine(acc.(values := acc.values[args[pos - 1] := args[pos]]), Remaining(args, pos + 1, false, vf))
  {
    var r := Split(args[pos + 1..], vf);
    assert acc.values + (map[args[pos - 1] := args[pos]] + r.values) == acc.values[args[pos - 1] := args[pos]] + r.values;
  }

  /** A value flag waits for the next token. */
  lemma GatherValueFlag(args: seq<string>, pos: nat, vf: seq<string>, acc: Partitioned)
    requires pos < |args| && IsValueFlag(args[pos], vf)
    ensures Combine(acc, Remaining(args, pos, false, vf)) == Combine(acc, Remaining(args, pos + 1, true, vf))
  {
    assert args[pos..][0] == args[pos];
    if pos + 1 < |args| {
      assert args[pos..][2..] == args[pos + 2..] && args[pos..][1] == args[pos + 1];
    } else {
      assert |args[pos..]| == 1;
    }
  }

  /** Any other token moves to the flags, expanded when it is a short-flag cluster, or to the
      positional arguments. */
  lemma GatherOther(args: seq<string>, pos: nat, vf: seq<string>, acc: Partitioned)
    requires pos < |args| && !IsValueFlag(args[pos], vf)
    ensures var t := args[pos];
      Combine(acc, Remaining(args, pos, false, vf))
        == Combine(if StartsWith(t, "--") then acc.(flags := acc.flags + [t])
                   else if IsFlag(t) then acc.(flags := acc.flags + Expand(t))
                   else acc.(args := acc.args + [t]),
                   Remaining(args, pos + 1, false, vf))
  {
    assert args[pos..][0] == args[pos] && args[pos..][1..] == args[pos + 1..];
    var r := Split(args[pos + 1..], vf);
    var t := args[pos];
    if StartsWith(t, "--") {
      assert acc.flags + ([t] + r.flags) == acc.flags + [t] + r.flags;
    } else if IsFlag(t) {
      assert acc.flags + (Expand(t) + r.flags) == acc.flags + Expand(t) + r.flags;
    } else {
      assert acc.args + ([t] + r.args) == acc.args + [t] + r.args;
    }
  }

  class CliRouter {
    var appName: string
    var versionMessage: string
    /** The root node's own handler alias and children: the router is the root of its tree. */
    var handlerAlias: Option<string>
    var children: map<string, Node>
    /** Handlers keyed by the alias as given to `add`. */
    var handlers: map<string, CliHandler>
    /** The keys of the command table, lowercased; the command objects are not modelled. */
    var commands: set<string>
    var categories: map<string, CliCategory>
    var ignoreFlags: map<string, bool>
    var globalFlags: seq<GlobalFlag>
    var parsedGlobalFlags: bool

    function Root(): Node
      reads this
    {
      Node(children, handlerAlias)
    }

    ghost predicate Valid()
      reads this
    {
      RegistryValid(Root(), handlers, commands) && FlagsValid(globalFlags)
    }

    /** `CliRouter::new()`. */
    constructor ()
      ensures Valid()
      ensures appName == "" && versionMessage == "" && Root() == Empty
      ensures handlers == map[] && commands == {} && categories == map[]
      ensures ignoreFlags == map[] && globalFlags == [] && !parsedGlobalFlags
    {
      appName, versionMessage := "", "";
      handlerAlias, children := None, map[];
      handlers, commands, categories := map[], {}, map[];
      ignoreFlags, globalFlags, parsedGlobalFlags := map[], [], false;
      forall p ensures HandlerAt(Empty, p) == None {
        WalkEmpty(p);
      }
    }

    /** `add`: registers the handler under the alias as given and the command under the
      lowered alias, and makes the alias and every shortcut a path to the lowered alias. */
    method Add(alias: string, shortcuts: seq<string>, valueFlags: seq<string>)
      requires Valid()
      modifies this
      ensures Valid()
      ensures handlers == old(handlers)[alias := CliHandler(Lower(alias), shortcuts, valueFlags)]
      ensures commands == old(commands) + {Lower(alias)}
      ensures Root() == InsertAll(old(Root()), Paths([alias] + shortcuts), Lower(alias))
      ensures forall q :: HandlerAt(Root(), q) == (if q in Paths([alias] + shortcuts) then Some(Lower(alias)) else HandlerAt(old(Root()), q))
      ensures appName == old(appName) && versionMessage == old(versionMessage)
      ensures categories == old(categories) && ignoreFlags == old(ignoreFlags)
      ensures globalFlags == old(globalFlags) && parsedGlobalFlags == old(parsedGlobalFlags)
    {
      var handler := CliHandler(Lower(alias), shortcuts, valueFlags);
      var queue := [alias] + shortcuts;
      ghost var root := Root();
      var node: Node := Root();
      for i := 0 to |queue|
        invariant unchanged(this)
        invariant InsertAll(node, Paths(queue[i..]), handler.alias) == InsertAll(root, Paths(queue), handler.alias)
      {
        InsertAllStep(node, queue, i, handler.alias);
        node := Insert(node, SplitWhitespace(queue[i]), handler.alias);
      }
      assert Paths(queue[|queue|..]) == [];
      AddKeepsValid(root, handlers, commands, alias, Paths(queue), handler);
      InsertAllHandlers(root, Paths(queue), handler.alias);
      handlers := handlers[alias := handler];
      commands := commands + {Lower(alias)};
      children, handlerAlias := node.children, node.handlerAlias;
    }

    /** `app_name`. */
    method SetAppName(name: string)
      modifies this`appName
      ensures appName == name
    {
      appName := name;
    }

    /** `version_message`. */
    method SetVersionMessage(msg: string)
      modifies this`versionMessage
      ensures versionMessage == msg
    {
      versionMessage := msg;
    }

    /** `global`: appends a descriptor, not present and without a value. */
    method Global(short: string, long: string, isValue: bool, desc: string)
      requires Valid()
      modifies this`globalFlags
      ensures Valid()
      ensures globalFlags == old(globalFlags) + [GlobalFlag(short, long, desc, isValue, false, None)]
    {
      globalFlags := globalFlags + [GlobalFlag(short, long, desc, isValue, false, None)];
    }

    /** `ignore`: the flag is dropped before routing, and with `isValue` the token after it too. */
    method Ignore(flag: string, isValue: bool)
      modifies this`ignoreFlags
      ensures ignoreFlags == old(ignoreFlags)[flag := isValue]
    {
      ignoreFlags := ignoreFlags[flag := isValue];
    }

    /** `add_category`: keyed by the lowered alias. */
    method AddCategory(alias: string, title: string, description: string)
      modifies this`categories
      ensures categories == old(categories)[Lower(alias) := CliCategory(Lower(alias), title, description)]
    {
      categories := categories[Lower(alias) := CliCategory(Lower(alias), title, description)];
    }

    /** `get_raw_args` over the argument vector `argv` (the program name first): the tokens
      routing sees, the values captured for global flags, and the version exit. */
    method GetRawArgs(argv: seq<string>) returns (r: RawArgs)
      requires Valid()
      modifies this`globalFlags, this`parsedGlobalFlags
      ensures Valid() && parsedGlobalFlags
      ensures var f := FilterArgv(argv, ignoreFlags, old(globalFlags), versionMessage);
        globalFlags == f.flags && r == RawOutcome(f, versionMessage)
    {
      ghost var spec := FilterArgv(argv, ignoreFlags, globalFlags, versionMessage);
      PrefilterKeepsFlagsValid(argv, ignoreFlags, globalFlags, versionMessage);
      var cmdArgs: seq<string> := [];
      var skipNext := true;
      var globalValueIndex: Option<nat> := None;
      parsedGlobalFlags := true;

      for i := 0 to |argv|
        invariant parsedGlobalFlags && |globalFlags| == |old(globalFlags)|
        invariant globalValueIndex.Some? ==> skipNext && globalValueIndex.value < |globalFlags|
        invariant spec == Resume(cmdArgs, Pending(argv[i..], skipNext, globalValueIndex, globalFlags,
                                                  ignoreFlags, versionMessage))
      {
        var token := argv[i];
        assert argv[i..][0] == token && argv[i..][1..] == argv[i + 1..];
        if skipNext {
          PendingSkip(argv[i..], globalValueIndex, globalFlags, ignoreFlags, versionMessage);
          skipNext := false;
          if globalValueIndex.Some? {
            globalFlags := globalFlags[globalValueIndex.value := globalFlags[globalValueIndex.value].(value := Some(token))];
            globalValueIndex := None;
          }
          continue;
        }

        PendingStep(argv[i..], globalFlags, ignoreFlags, versionMessage);
        if IsVersionToken(token) && versionMessage != "" {
          return VersionShown(versionMessage);
        } else if token in ignoreFlags {
          skipNext := ignoreFlags[token];
        } else {
          var index := FindGlobal(globalFlags, token);
          if index.Some? {
            skipNext := globalFlags[index.value].isValue;
            if skipNext {
              globalValueIndex := index;
            }
          } else {
            ResumeKeep(cmdArgs, token, Pending(argv[i + 1..], false, None, globalFlags, ignoreFlags, versionMessage));
            cmdArgs := cmdArgs + [token];
          }
        }
      }

      assert argv[|argv|..] == [];
      assert globalFlags == spec.flags;
      if cmdArgs != [] {
        return Args(cmdArgs);
      } else {
        return NoArgs;
      }
    }

    /** `has_global`: whether the first descriptor matching `flag` is marked present. Nothing
      ever marks one, so the answer is always no. */
    method HasGlobal(argv: seq<string>, flag: string) returns (r: Answer<bool>)
      requires Valid()
      modifies this`globalFlags, this`parsedGlobalFlags
      ensures Valid() && parsedGlobalFlags
      ensures old(parsedGlobalFlags) ==> globalFlags == old(globalFlags)
      ensures !old(parsedGlobalFlags) ==>
        globalFlags == FilterArgv(argv, ignoreFlags, old(globalFlags), versionMessage).flags
      ensures r.Exited? <==> !old(parsedGlobalFlags) && FilterArgv(argv, ignoreFlags, old(globalFlags), versionMessage).version
      ensures r.Exited? ==> r.message == versionMessage
      ensures r.Answer? ==> r.value == (FindGlobal(globalFlags, flag).Some? && globalFlags[FindGlobal(globalFlags, flag).value].has)
      ensures r.Answer? ==> !r.value
    {
      if !parsedGlobalFlags {
        var raw := GetRawArgs(argv);
        if raw.VersionShown? {
          return Exited(raw.message);
        }
      }
      var index := FindGlobal(globalFlags, flag);
      if index.Some? {
        return Answer(globalFlags[index.value].has);
      }
      return Answer(false);
    }

    /** `get_global`: the value captured for the first descriptor matching `flag`; only a
      value-bearing flag can have one. */
    method GetGlobal(argv: seq<string>, flag: string) returns (r: Answer<Option<string>>)
      requires Valid()
      modifies this`globalFlags, this`parsedGlobalFlags
      ensures Valid() && parsedGlobalFlags
      ensures old(parsedGlobalFlags) ==> globalFlags == old(globalFlags)
      ensures !old(parsedGlobalFlags) ==>
        globalFlags == FilterArgv(argv, ignoreFlags, old(globalFlags), versionMessage).flags
      ensures r.Exited? <==> !old(parsedGlobalFlags) && FilterArgv(argv, ignoreFlags, old(globalFlags), versionMessage).version
      ensures r.Exited? ==> r.message == versionMessage
      ensures r.Answer? ==> r.value == (var i := FindGlobal(globalFlags, flag); if i.Some? then globalFlags[i.value].value else None)
      ensures r.Answer? && r.value.Some? ==> globalFlags[FindGlobal(globalFlags, flag).value].isValue
    {
      if !parsedGlobalFlags {
        var raw := GetRawArgs(argv);
        if raw.VersionShown? {
          return Exited(raw.message);
        }
      }
      var index := FindGlobal(globalFlags, flag);
      if index.Some? {
        return Answer(globalFlags[index.value].value);
      }
      return Answer(None);
    }

    /** `lookup_handler`: the walk down the tree, then the typo fallback when it found no
      handler. `order` is the iteration order of the command table. */
    method LookupHandler(args: seq<string>, order: seq<string>, accept: string -> bool)
      returns (handler: Option<CliHandler>, rest: seq<string>)
      requires IsEnumeration(order, commands)
      ensures Resolution(handler, rest) == Resolve(Root(), handlers, args, SortByWordCount(order), accept)
    {
      var root := Root();
      var hAlias: Option<string> := None;
      var start, length := 0, 0;
      var child := root;
      ghost var path: seq<string> := [];
      ghost var upto := 0;
      ghost var final := Scan(root, args);

      for pos := 0 to |args|
        invariant ScanFrom(root, args, pos, ScanState(child, start, length, hAlias, false, path, upto)) == final
      {
        var segment := args[pos];
        ghost var st := ScanState(child, start, length, hAlias, false, path, upto);
        ScanFromStep(root, args, pos, st);
        if IsFlag(segment) {
          assert Step(root, st, pos, segment) == st;
          continue;
        }
        var key := Lower(segment);
        if key in child.children {
          var next := child.children[key];
          if length == 0 {
            start, length := pos, 1;
          } else {
            length := length + 1;
          }
          if next.handlerAlias.Some? {
            hAlias := next.handlerAlias;
          }
          child := next;
          path, upto := path + [key], pos + 1;
          assert Step(root, st, pos, segment) == ScanState(child, start, length, hAlias, false, path, upto);
        } else if hAlias.Some? {
          assert Step(root, st, pos, segment) == st.(stopped := true);
          assert final == st.(stopped := true);
          break;
        } else {
          child, length, path := root, 0, [];
          assert Step(root, st, pos, segment) == ScanState(child, start, length, hAlias, false, path, upto);
        }
      }
      assert final.hAlias == hAlias && final.start == start && final.length == length;

      if hAlias.None? {
        var found, rest' := LookupSimilar(args, order, accept);
        rest := rest';
        handler := if found.Some? then Get(handlers, found.value) else None;
      } else {
        ScanHit(root, args);
        rest := Drain(args, start, start + length);
        handler := Get(handlers, hAlias.value);
      }
    }

    /** `gather_flags`: the arguments left after the route, split for `handler`. */
    method GatherFlags(args: seq<string>, handler: CliHandler)
      returns (flags: seq<string>, flagValues: map<string, string>, finalArgs: seq<string>)
      ensures Partitioned(finalArgs, flags, flagValues) == Split(args, handler.valueFlags)
    {
      ghost var vf := handler.valueFlags;
      var inclValue := false;
      flags, flagValues, finalArgs := [], map[], [];
      assert args[0..] == args;
      assert map[] + Split(args, vf).values == Split(args, vf).values;

      for pos := 0 to |args|
        invariant inclValue ==> pos > 0
        invariant Split(args, vf) == Combine(Partitioned(finalArgs, flags, flagValues), Remaining(args, pos, inclValue, vf))
      {
        var value := args[pos];
        if inclValue {
          GatherValue(args, pos, vf, Partitioned(finalArgs, flags, flagValues));
          flagValues := flagValues[args[pos - 1] := value];
          inclValue := false;
        } else if IsFlag(value) && value in handler.valueFlags {
          GatherValueFlag(args, pos, vf, Partitioned(finalArgs, flags, flagValues));
          inclValue := true;
        } else {
          GatherOther(args, pos, vf, Partitioned(finalArgs, flags, flagValues));
          if StartsWith(value, "--") {
            flags := flags + [value];
          } else if IsFlag(value) {
            flags := PushCluster(flags, value);
          } else {
            finalArgs := finalArgs + [value];
          }
        }
      }
      assert args[|args|..] == [];
      assert flagValues + map[] == flagValues;
    }

    /** The inner loop of `gather_flags`: one flag per character after the dash. */
    static method PushCluster(flags: seq<string>, value: string) returns (r: seq<string>)
      requires |value| >= 1
      ensures r == flags + Expand(value)
    {
      r := flags;
      for k := 1 to |value|
        invariant r == flags + Expand(value)[..k - 1]
      {
        assert Expand(value)[..k] == Expand(value)[..k - 1] + [['-', value[k]]];
        r := r + [['-', value[k]]];
      }
      assert Expand(value)[..|value| - 1] == Expand(value);
    }

    /** `lookup_similar` over the command table enumerated in `order`; `accept` answers the
      confirmation prompt. */
    method LookupSimilar(args: seq<string>, order: seq<string>, accept: string -> bool)
      returns (found: Option<string>, rest: seq<string>)
      requires IsEnumeration(order, commands)
      ensures Fallback(found, rest) == SimilarOf(args, SortByWordCount(order), accept)
    {
      var start := FirstNonFlag(args);
      var search := NonFlags(args);
      var cmds := SortByWordCount(order);
      var distance: nat, binLength: nat, foundCmd: string := 0, 0, "";

      for i := 0 to |cmds|
        invariant SuggestFrom(search, cmds, i, distance, binLength, foundCmd) == Suggest(search, cmds)
      {
        var chkAlias := cmds[i];
        var length := WordCount(chkAlias);
        if binLength != length && binLength > 0 && 0 < distance < 4 {
          if accept(ConfirmMessage(foundCmd)) {
            var end := if start + length < |args| then start + length else |args|;
            return Some(foundCmd), Drain(args, start, end);
          } else {
            return None, args;
          }
        } else if binLength != length {
          binLength, distance, foundCmd := length, 0, "";
        }
        var chkDistance := Levenshtein(chkAlias, Query(search, length));
        if chkDistance < distance || distance == 0 {
          distance, foundCmd := chkDistance, chkAlias;
        }
      }
      return None, args;
    }

    /** `lookup`: the prefilter, help detection, handler lookup and the flag split, in that
      order. A routed request's command is always in the command table. */
    method Lookup(argv: seq<string>, order: seq<string>, accept: string -> bool) returns (r: Route)
      requires Valid() && IsEnumeration(order, commands)
      modifies this`globalFlags, this`parsedGlobalFlags
      ensures Valid() && parsedGlobalFlags
      ensures var f := FilterArgv(argv, ignoreFlags, old(globalFlags), versionMessage);
        globalFlags == f.flags
        && r == RouteOf(Root(), handlers, categories, RawOutcome(f, versionMessage), SortByWordCount(order), accept)
      ensures r.Routed? ==> r.command in commands && r.command == r.request.cmdAlias
    {
      var raw := GetRawArgs(argv);
      if raw.VersionShown? {
        return PrintVersion(raw.message);
      }
      if raw.NoArgs? {
        return NoRoute;
      }
      var help := HelpOf(categories, raw.tokens);
      if help.RenderIndex? {
        return HelpIndex;
      }
      if help.RenderCategory? {
        return HelpCategory(help.alias);
      }
      var handler, rest := LookupHandler(help.args, order, accept);
      if handler.None? {
        return NoRoute;
      }
      var h := handler.value;
      var flags, flagValues, args := GatherFlags(rest, h);
      SortedCommands(order, commands);
      ResolveRegistered(Root(), handlers, commands, help.args, SortByWordCount(order), accept);
      // The command table lookup (`unwrap` in the source) cannot fail.
      assert h.alias in commands;
      return Routed(CliRequest(h.alias, help.isHelp, args, flags, flagValues, h.shortcuts), h.alias);
    }
  }
}
