/** The global-flag prefilter run over the process arguments before routing. */
module Prefilter {
  import opened Base

  /** `CliGlobalFlag`: a flag available to every command, with its per-invocation state. */
  datatype GlobalFlag = GlobalFlag(short: string, long: string, desc: string, isValue: bool,
                                   has: bool, value: Option<string>)

  predicate Matches(gf: GlobalFlag, t: string)
  {
    gf.short == t || gf.long == t
  }

  /** `global_flags.iter().position(..)`: the first descriptor whose short or long form is `t`. */
  function FindGlobal(flags: seq<GlobalFlag>, t: string): (r: Option<nat>)
    ensures r.Some? ==> r.value < |flags| && Matches(flags[r.value], t)
    ensures r.Some? ==> forall j :: 0 <= j < r.value ==> !Matches(flags[j], t)
    ensures r.None? ==> forall j :: 0 <= j < |flags| ==> !Matches(flags[j], t)
  {
    if flags == [] then None
    else if Matches(flags[0], t) then Some(0)
    else match FindGlobal(flags[1..], t)
      case None => None
      case Some(k) => Some(k + 1)
  }

  /** Two descriptor lists that differ at most in their `value` fields. */
  predicate SameShape(f: seq<GlobalFlag>, g: seq<GlobalFlag>)
  {
    |f| == |g| && forall i :: 0 <= i < |f| ==> f[i] == g[i].(value := f[i].value)
  }

  lemma FindGlobalShape(f: seq<GlobalFlag>, g: seq<GlobalFlag>, t: string)
    requires SameShape(f, g)
    ensures FindGlobal(f, t) == FindGlobal(g, t)
  {
    var a, b := FindGlobal(f, t), FindGlobal(g, t);
    if a.Some? {
      assert Matches(g[a.value], t);
    }
    if b.Some? {
      assert Matches(f[b.value], t);
    }
  }

  predicate IsVersionToken(t: string)
  {
    t == "-v" || t == "--version"
  }

  /** A token the prefilter passes on: not the version trigger, not ignored, not global. */
  predicate Ordinary(t: string, ignore: map<string, bool>, flags: seq<GlobalFlag>, versionMessage: string)
  {
    !(IsVersionToken(t) && versionMessage != "") && t !in ignore && FindGlobal(flags, t).None?
  }

  predicate AllOrdinary(ts: seq<string>, ignore: map<string, bool>, flags: seq<GlobalFlag>, versionMessage: string)
  {
    forall k :: 0 <= k < |ts| ==> Ordinary(ts[k], ignore, flags, versionMessage)
  }

  /** The state the prefilter leaves behind: the tokens passed on, the descriptors, and whether
      the version message ends the process. */
  datatype Filtered = Filtered(kept: seq<string>, flags: seq<GlobalFlag>, version: bool)

  /** The prefilter over the arguments after the program name, stated token by token
      without the loop's `skip_next` and `global_value_index` state. */
  function FilterTokens(ts: seq<string>, ignore: map<string, bool>, flags: seq<GlobalFlag>,
                        versionMessage: string): (r: Filtered)
    ensures |r.flags| == |flags|
    decreases |ts|
  {
    if ts == [] then Filtered([], flags, false)
    else
      var t := ts[0];
      if IsVersionToken(t) && versionMessage != "" then Filtered([], flags, true)
      else if t in ignore then
        if ignore[t] && |ts| > 1 then FilterTokens(ts[2..], ignore, flags, versionMessage)
        else FilterTokens(ts[1..], ignore, flags, versionMessage)
      else
        var g := FindGlobal(flags, t);
        if g.Some? then
          if flags[g.value].isValue && |ts| > 1 then
            FilterTokens(ts[2..], ignore, flags[g.value := flags[g.value].(value := Some(ts[1]))], versionMessage)
          else FilterTokens(ts[1..], ignore, flags, versionMessage)
        else
          var rest := FilterTokens(ts[1..], ignore, flags, versionMessage);
          rest.(kept := [t] + rest.kept)
  }

  /** The argument vector without its first element, the program name. */
  function Tail(argv: seq<string>): seq<string>
  {
    if argv == [] then [] else argv[1..]
  }

  /** What `get_raw_args` returns, with the version exit as an outcome. */
  datatype RawArgs = VersionShown(message: string) | NoArgs | Args(tokens: seq<string>)

  function FilterArgv(argv: seq<string>, ignore: map<string, bool>, flags: seq<GlobalFlag>,
                     versionMessage: string): Filtered
  {
    FilterTokens(Tail(argv), ignore, flags, versionMessage)
  }

  function RawOutcome(f: Filtered, versionMessage: string): (r: RawArgs)
    ensures r.VersionShown? <==> f.version
    ensures f.version ==> r == VersionShown(versionMessage)
    ensures r.Args? ==> |r.tokens| > 0 && r.tokens == f.kept
    ensures r.NoArgs? <==> !f.version && f.kept == []
  {
    if f.version then VersionShown(versionMessage)
    else if f.kept == [] then NoArgs
    else Args(f.kept)
  }

  /** Every token passed on is ordinary. */
  lemma {:induction false} FilterKeptOrdinary(ts: seq<string>, ignore: map<string, bool>,
                                              flags: seq<GlobalFlag>, vm: string)
    ensures AllOrdinary(FilterTokens(ts, ignore, flags, vm).kept, ignore, flags, vm)
    decreases |ts|
  {
    if ts != [] {
      var t := ts[0];
      if IsVersionToken(t) && vm != "" {
      } else if t in ignore {
        if ignore[t] && |ts| > 1 {
          FilterKeptOrdinary(ts[2..], ignore, flags, vm);
        } else {
          FilterKeptOrdinary(ts[1..], ignore, flags, vm);
        }
      } else {
        var g := FindGlobal(flags, t);
        if g.Some? {
          if flags[g.value].isValue && |ts| > 1 {
            var flags' := flags[g.value := flags[g.value].(value := Some(ts[1]))];
            FilterKeptOrdinary(ts[2..], ignore, flags', vm);
            forall u ensures FindGlobal(flags', u) == FindGlobal(flags, u) {
              FindGlobalShape(flags', flags, u);
            }
          } else {
            FilterKeptOrdinary(ts[1..], ignore, flags, vm);
          }
        } else {
          FilterKeptOrdinary(ts[1..], ignore, flags, vm);
          var rest := FilterTokens(ts[1..], ignore, flags, vm);
          assert Ordinary(t, ignore, flags, vm);
          var kept := FilterTokens(ts, ignore, flags, vm).kept;
          assert kept == [t] + rest.kept;
          forall k | 0 <= k < |kept| ensures Ordinary(kept[k], ignore, flags, vm) {
            if k > 0 {
              assert kept[k] == rest.kept[k - 1];
            }
          }
        }
      }
    }
  }

  /** Tokens that are all ordinary pass through unchanged, in order, and no descriptor changes. */
  lemma {:induction false} FilterOrdinaryUnchanged(ts: seq<string>, ignore: map<string, bool>,
                                                   flags: seq<GlobalFlag>, vm: string)
    requires AllOrdinary(ts, ignore, flags, vm)
    ensures FilterTokens(ts, ignore, flags, vm) == Filtered(ts, flags, false)
    decreases |ts|
  {
    if ts != [] {
      FilterOrdinaryUnchanged(ts[1..], ignore, flags, vm);
      assert ts == [ts[0]] + ts[1..];
    }
  }

  /** The prefilter changes descriptors only in the `value` of value-bearing flags: it never sets `has`. */
  lemma {:induction false} FilterFrame(ts: seq<string>, ignore: map<string, bool>,
                                       flags: seq<GlobalFlag>, vm: string)
    ensures var f := FilterTokens(ts, ignore, flags, vm);
      SameShape(f.flags, flags)
      && forall i :: 0 <= i < |flags| && f.flags[i].value != flags[i].value ==> flags[i].isValue
    decreases |ts|
  {
    if ts != [] {
      var t := ts[0];
      if IsVersionToken(t) && vm != "" {
      } else if t in ignore {
        if ignore[t] && |ts| > 1 {
          FilterFrame(ts[2..], ignore, flags, vm);
        } else {
          FilterFrame(ts[1..], ignore, flags, vm);
        }
      } else {
        var g := FindGlobal(flags, t);
        if g.Some? && flags[g.value].isValue && |ts| > 1 {
          var flags' := flags[g.value := flags[g.value].(value := Some(ts[1]))];
          FilterFrame(ts[2..], ignore, flags', vm);
        } else {
          FilterFrame(ts[1..], ignore, flags, vm);
        }
      }
    }
  }

  /** Two runs from descriptor lists of the same shape keep the same tokens, and their values
      differ only where neither run wrote one. */
  lemma {:induction false} FilterShapeIndependent(ts: seq<string>, ignore: map<string, bool>,
                                                  f: seq<GlobalFlag>, g: seq<GlobalFlag>, vm: string)
    requires SameShape(f, g)
    ensures var a, b := FilterTokens(ts, ignore, f, vm), FilterTokens(ts, ignore, g, vm);
      a.kept == b.kept && a.version == b.version && |a.flags| == |f| && |b.flags| == |f|
      && forall i :: 0 <= i < |f| && a.flags[i].value != b.flags[i].value ==>
           a.flags[i].value == f[i].value && b.flags[i].value == g[i].value
    decreases |ts|
  {
    FilterFrame(ts, ignore, f, vm);
    FilterFrame(ts, ignore, g, vm);
    if ts != [] {
      var t := ts[0];
      FindGlobalShape(f, g, t);
      if IsVersionToken(t) && vm != "" {
      } else if t in ignore {
        if ignore[t] && |ts| > 1 {
          FilterShapeIndependent(ts[2..], ignore, f, g, vm);
        } else {
          FilterShapeIndependent(ts[1..], ignore, f, g, vm);
        }
      } else {
        var idx := FindGlobal(f, t);
        if idx.Some? && f[idx.value].isValue && |ts| > 1 {
          var j := idx.value;
          var f' := f[j := f[j].(value := Some(ts[1]))];
          var g' := g[j := g[j].(value := Some(ts[1]))];
          FilterShapeIndependent(ts[2..], ignore, f', g', vm);
        } else {
          FilterShapeIndependent(ts[1..], ignore, f, g, vm);
        }
      }
    }
  }

  /** Running the prefilter a second time over the same arguments, from the descriptors the
      first run left (as `lookup` does after `has_global`), changes nothing. */
  lemma PrefilterIdempotent(argv: seq<string>, ignore: map<string, bool>, flags: seq<GlobalFlag>, vm: string)
    ensures var once := FilterArgv(argv, ignore, flags, vm);
      FilterArgv(argv, ignore, once.flags, vm) == once
  {
    var ts := Tail(argv);
    var once := FilterTokens(ts, ignore, flags, vm);
    FilterFrame(ts, ignore, flags, vm);
    FilterShapeIndependent(ts, ignore, once.flags, flags, vm);
    var twice := FilterTokens(ts, ignore, once.flags, vm);
    FilterFrame(ts, ignore, once.flags, vm);
    assert forall i :: 0 <= i < |flags| ==> twice.flags[i] == once.flags[i];
  }

  /** Whether the pass over `ts` ends without the version exit and with no token still to skip
      after an ignored or global flag that takes a value. */
  predicate Settles(ts: seq<string>, ignore: map<string, bool>, flags: seq<GlobalFlag>, vm: string)
    decreases |ts|
  {
    if ts == [] then true
    else
      var t := ts[0];
      if IsVersionToken(t) && vm != "" then false
      else if t in ignore then
        if ignore[t] then |ts| > 1 && Settles(ts[2..], ignore, flags, vm)
        else Settles(ts[1..], ignore, flags, vm)
      else
        var g := FindGlobal(flags, t);
        if g.Some? && flags[g.value].isValue then
          |ts| > 1 && Settles(ts[2..], ignore, flags[g.value := flags[g.value].(value := Some(ts[1]))], vm)
        else Settles(ts[1..], ignore, flags, vm)
  }

  /** The pass is left to right: after a stretch that settles, the rest is filtered on its own,
      from the descriptors the stretch left, and its kept tokens follow the stretch's in order. */
  lemma {:induction false} FilterAppend(a: seq<string>, b: seq<string>, ignore: map<string, bool>,
                                        flags: seq<GlobalFlag>, vm: string)
    requires Settles(a, ignore, flags, vm)
    ensures var fa := FilterTokens(a, ignore, flags, vm);
      var fb := FilterTokens(b, ignore, fa.flags, vm);
      !fa.version && FilterTokens(a + b, ignore, flags, vm) == Filtered(fa.kept + fb.kept, fb.flags, fb.version)
    decreases |a|
  {
    if a == [] {
      assert a + b == b;
    } else {
      var t := a[0];
      assert (a + b)[0] == t;
      if t in ignore {
        if ignore[t] {
          assert (a + b)[2..] == a[2..] + b;
          FilterAppend(a[2..], b, ignore, flags, vm);
        } else {
          assert (a + b)[1..] == a[1..] + b;
          FilterAppend(a[1..], b, ignore, flags, vm);
        }
      } else {
        var g := FindGlobal(flags, t);
        if g.Some? && flags[g.value].isValue {
          assert (a + b)[2..] == a[2..] + b && (a + b)[1] == a[1];
          FilterAppend(a[2..], b, ignore, flags[g.value := flags[g.value].(value := Some(a[1]))], vm);
        } else {
          assert (a + b)[1..] == a[1..] + b;
          FilterAppend(a[1..], b, ignore, flags, vm);
          if g.None? {
            var ra := FilterTokens(a[1..], ignore, flags, vm);
            var rb := FilterTokens(b, ignore, ra.flags, vm);
            assert [t] + (ra.kept + rb.kept) == ([t] + ra.kept) + rb.kept;
          }
        }
      }
    }
  }

  /** The version trigger ends the pass wherever it stands, before the ignore and global checks:
      even an ignored or global `-v` stops it, and nothing after it is looked at. */
  lemma FilterVersionStops(pre: seq<string>, t: string, post: seq<string>,
                           ignore: map<string, bool>, flags: seq<GlobalFlag>, vm: string)
    requires Settles(pre, ignore, flags, vm)
    requires IsVersionToken(t) && vm != ""
    ensures var fp := FilterTokens(pre, ignore, flags, vm);
      FilterTokens(pre + [t] + post, ignore, flags, vm) == Filtered(fp.kept, fp.flags, true)
  {
    assert pre + [t] + post == pre + ([t] + post);
    FilterAppend(pre, [t] + post, ignore, flags, vm);
    assert ([t] + post)[0] == t;
    var fp := FilterTokens(pre, ignore, flags, vm);
    assert fp.kept + [] == fp.kept;
  }

  /** An ordinary token is kept wherever it stands, after the tokens kept before it and before
      those kept after it. */
  lemma FilterKeepsOrdinary(pre: seq<string>, t: string, post: seq<string>,
                            ignore: map<string, bool>, flags: seq<GlobalFlag>, vm: string)
    requires Settles(pre, ignore, flags, vm) && Ordinary(t, ignore, flags, vm)
    ensures var fp := FilterTokens(pre, ignore, flags, vm);
      var fr := FilterTokens(post, ignore, fp.flags, vm);
      FilterTokens(pre + [t] + post, ignore, flags, vm) == Filtered(fp.kept + [t] + fr.kept, fr.flags, fr.version)
  {
    var fp := FilterTokens(pre, ignore, flags, vm);
    var fr := FilterTokens(post, ignore, fp.flags, vm);
    assert FilterTokens([t] + post, ignore, fp.flags, vm) == fr.(kept := [t] + fr.kept) by {
      FilterFrame(pre, ignore, flags, vm);
      FindGlobalShape(fp.flags, flags, t);
      assert ([t] + post)[0] == t && ([t] + post)[1..] == post;
    }
    assert pre + [t] + post == pre + ([t] + post);
    FilterAppend(pre, [t] + post, ignore, flags, vm);
    assert fp.kept + ([t] + fr.kept) == fp.kept + [t] + fr.kept;
  }

  /** An ignored flag is dropped wherever it stands, together with the token after it when it
      takes a value; the pass goes on after them with the descriptors unchanged. */
  lemma FilterDropsIgnored(pre: seq<string>, t: string, post: seq<string>,
                           ignore: map<string, bool>, flags: seq<GlobalFlag>, vm: string)
    requires Settles(pre, ignore, flags, vm)
    requires !(IsVersionToken(t) && vm != "") && t in ignore
    ensures var fp := FilterTokens(pre, ignore, flags, vm);
      var rest := if ignore[t] && post != [] then post[1..] else post;
      var fr := FilterTokens(rest, ignore, fp.flags, vm);
      FilterTokens(pre + [t] + post, ignore, flags, vm) == Filtered(fp.kept + fr.kept, fr.flags, fr.version)
  {
    assert pre + [t] + post == pre + ([t] + post);
    FilterAppend(pre, [t] + post, ignore, flags, vm);
    assert ([t] + post)[0] == t && ([t] + post)[1..] == post;
    if post != [] {
      assert ([t] + post)[2..] == post[1..];
    }
  }

  /** A global flag is dropped wherever it stands. When it takes a value and a token follows,
      that token becomes the value of the first descriptor naming the flag and is dropped too. */
  lemma FilterDropsGlobal(pre: seq<string>, t: string, post: seq<string>,
                          ignore: map<string, bool>, flags: seq<GlobalFlag>, vm: string)
    requires Settles(pre, ignore, flags, vm)
    requires !(IsVersionToken(t) && vm != "") && t !in ignore && FindGlobal(flags, t).Some?
    ensures var i := FindGlobal(flags, t).value;
      var fp := FilterTokens(pre, ignore, flags, vm);
      var captures := flags[i].isValue && post != [];
      var rest := if captures then post[1..] else post;
      var from := if captures then fp.flags[i := fp.flags[i].(value := Some(post[0]))] else fp.flags;
      var fr := FilterTokens(rest, ignore, from, vm);
      FilterTokens(pre + [t] + post, ignore, flags, vm) == Filtered(fp.kept + fr.kept, fr.flags, fr.version)
  {
    var fp := FilterTokens(pre, ignore, flags, vm);
    FilterFrame(pre, ignore, flags, vm);
    FindGlobalShape(fp.flags, flags, t);
    assert pre + [t] + post == pre + ([t] + post);
    FilterAppend(pre, [t] + post, ignore, flags, vm);
    assert ([t] + post)[0] == t && ([t] + post)[1..] == post;
    if post != [] {
      assert ([t] + post)[2..] == post[1..] && ([t] + post)[1] == post[0];
    }
  }
}
