/** How `gather_flags` splits the arguments left after routing into positional arguments,
    boolean flags and flag values. */
module Partition {
  import opened Base

  datatype Partitioned = Partitioned(args: seq<string>, flags: seq<string>, values: map<string, string>)

  /** A short-flag cluster `-abc` as the flags `-a`, `-b`, `-c`. */
  function Expand(t: string): (r: seq<string>)
    requires |t| >= 1
    ensures |r| == |t| - 1
    ensures forall k :: 0 <= k < |r| ==> r[k] == ['-', t[k + 1]]
  {
    seq(|t| - 1, k requires 0 <= k < |t| - 1 => ['-', t[k + 1]])
  }

  /** Whether `t` is a value flag of the handler: a flag listed among its value flags. */
  predicate IsValueFlag(t: string, valueFlags: seq<string>)
  {
    IsFlag(t) && t in valueFlags
  }

  /** The partition, token by token: a value flag takes the next token as its value (a later
      value for the same flag wins, and a value flag with nothing after it is dropped);
      a `--` token is a flag as it stands; another `-` token is a cluster of short flags;
      everything else is positional. */
  function Split(ts: seq<string>, valueFlags: seq<string>): Partitioned
    decreases |ts|
  {
    if ts == [] then Partitioned([], [], map[])
    else
      var t := ts[0];
      if IsValueFlag(t, valueFlags) then
        if |ts| == 1 then Partitioned([], [], map[])
        else var rest := Split(ts[2..], valueFlags); rest.(values := map[t := ts[1]] + rest.values)
      else
        var rest := Split(ts[1..], valueFlags);
        if StartsWith(t, "--") then rest.(flags := [t] + rest.flags)
        else if IsFlag(t) then rest.(flags := Expand(t) + rest.flags)
        else rest.(args := [t] + rest.args)
  }

  /** No positional argument is a flag, every flag is a dash followed by something, and every
      value belongs to a declared value flag. */
  predicate WellSplit(p: Partitioned, valueFlags: seq<string>)
  {
    (forall k :: 0 <= k < |p.args| ==> !IsFlag(p.args[k]))
    && (forall k :: 0 <= k < |p.flags| ==> IsFlag(p.flags[k]) && |p.flags[k]| >= 2)
    && (forall f :: f in p.values ==> IsValueFlag(f, valueFlags))
  }

  lemma {:induction false} SplitShape(ts: seq<string>, valueFlags: seq<string>)
    ensures WellSplit(Split(ts, valueFlags), valueFlags)
    decreases |ts|
  {
    if ts != [] {
      var t := ts[0];
      if IsValueFlag(t, valueFlags) {
        if |ts| > 1 {
          SplitShape(ts[2..], valueFlags);
          var rest := Split(ts[2..], valueFlags);
          var p := Split(ts, valueFlags);
          assert p == rest.(values := map[t := ts[1]] + rest.values);
          assert p.args == rest.args && p.flags == rest.flags;
        }
      } else {
        SplitShape(ts[1..], valueFlags);
        var rest := Split(ts[1..], valueFlags);
        var p := Split(ts, valueFlags);
        if StartsWith(t, "--") {
          assert p.flags == [t] + rest.flags;
          assert t[..2] == "--";
          assert forall k :: 1 <= k < |p.flags| ==> p.flags[k] == rest.flags[k - 1];
        } else if IsFlag(t) {
          assert p.flags == Expand(t) + rest.flags;
          assert forall k :: |Expand(t)| <= k < |p.flags| ==> p.flags[k] == rest.flags[k - |Expand(t)|];
        } else {
          assert p.args == [t] + rest.args;
          assert forall k :: 1 <= k < |p.args| ==> p.args[k] == rest.args[k - 1];
        }
      }
    }
  }

  /** Tokens that are all positional stay positional, in order. */
  lemma {:induction false} SplitNoFlags(ts: seq<string>, valueFlags: seq<string>)
    requires forall k :: 0 <= k < |ts| ==> !IsFlag(ts[k])
    ensures Split(ts, valueFlags) == Partitioned(ts, [], map[])
    decreases |ts|
  {
    if ts != [] {
      SplitNoFlags(ts[1..], valueFlags);
      assert ts == [ts[0]] + ts[1..];
    }
  }

  /** Two partitions one after the other: positional arguments and flags in order, and the
      later flag values over the earlier ones. */
  function Combine(a: Partitioned, b: Partitioned): Partitioned
  {
    Partitioned(a.args + b.args, a.flags + b.flags, a.values + b.values)
  }

  /** Whether the pass over `ts` ends with no value flag still waiting for its value. */
  predicate Closed(ts: seq<string>, valueFlags: seq<string>)
    decreases |ts|
  {
    if ts == [] then true
    else if IsValueFlag(ts[0], valueFlags) then |ts| > 1 && Closed(ts[2..], valueFlags)
    else Closed(ts[1..], valueFlags)
  }

  /** The pass is left to right: after a stretch that leaves no value flag waiting, the rest
      is split on its own and appended. */
  lemma {:induction false} SplitAppend(a: seq<string>, b: seq<string>, valueFlags: seq<string>)
    requires Closed(a, valueFlags)
    ensures Split(a + b, valueFlags) == Combine(Split(a, valueFlags), Split(b, valueFlags))
    decreases |a|
  {
    if a == [] {
      assert a + b == b;
      var sb := Split(b, valueFlags);
      assert map[] + sb.values == sb.values;
    } else {
      var t := a[0];
      assert (a + b)[0] == t;
      if IsValueFlag(t, valueFlags) {
        assert (a + b)[2..] == a[2..] + b && (a + b)[1] == a[1];
        SplitAppend(a[2..], b, valueFlags);
        var ra, rb := Split(a[2..], valueFlags), Split(b, valueFlags);
        assert map[t := a[1]] + (ra.values + rb.values) == (map[t := a[1]] + ra.values) + rb.values;
      } else {
        assert (a + b)[1..] == a[1..] + b;
        SplitAppend(a[1..], b, valueFlags);
        var ra, rb := Split(a[1..], valueFlags), Split(b, valueFlags);
        if StartsWith(t, "--") {
          assert [t] + (ra.flags + rb.flags) == ([t] + ra.flags) + rb.flags;
        } else if IsFlag(t) {
          assert Expand(t) + (ra.flags + rb.flags) == (Expand(t) + ra.flags) + rb.flags;
        } else {
          assert [t] + (ra.args + rb.args) == ([t] + ra.args) + rb.args;
        }
      }
    }
  }

  /** A token that is not a flag stays positional wherever it stands, between the positional
      arguments before it and those after it. */
  lemma SplitPositional(pre: seq<string>, t: string, post: seq<string>, valueFlags: seq<string>)
    requires Closed(pre, valueFlags) && !IsFlag(t)
    ensures var p, q := Split(pre, valueFlags), Split(post, valueFlags);
      Split(pre + [t] + post, valueFlags) == Partitioned(p.args + [t] + q.args, p.flags + q.flags, p.values + q.values)
  {
    assert pre + [t] + post == pre + ([t] + post);
    SplitAppend(pre, [t] + post, valueFlags);
    assert ([t] + post)[1..] == post;
  }

  /** A `--` token that is not a declared value flag is a flag as it stands, wherever it stands. */
  lemma SplitLongFlag(pre: seq<string>, t: string, post: seq<string>, valueFlags: seq<string>)
    requires Closed(pre, valueFlags) && StartsWith(t, "--") && !IsValueFlag(t, valueFlags)
    ensures var p, q := Split(pre, valueFlags), Split(post, valueFlags);
      Split(pre + [t] + post, valueFlags) == Partitioned(p.args + q.args, p.flags + [t] + q.flags, p.values + q.values)
  {
    var q := Split(post, valueFlags);
    assert pre + [t] + post == pre + ([t] + post);
    SplitAppend(pre, [t] + post, valueFlags);
    assert Split([t] + post, valueFlags) == q.(flags := [t] + q.flags) by {
      assert ([t] + post)[0] == t && ([t] + post)[1..] == post;
    }
    assert Split(pre, valueFlags).flags + ([t] + q.flags) == Split(pre, valueFlags).flags + [t] + q.flags;
  }

  /** Any other `-` token that is not a declared value flag becomes its cluster of short
      flags, wherever it stands. */
  lemma SplitCluster(pre: seq<string>, t: string, post: seq<string>, valueFlags: seq<string>)
    requires Closed(pre, valueFlags) && IsFlag(t) && !StartsWith(t, "--") && !IsValueFlag(t, valueFlags)
    ensures var p, q := Split(pre, valueFlags), Split(post, valueFlags);
      Split(pre + [t] + post, valueFlags) == Partitioned(p.args + q.args, p.flags + Expand(t) + q.flags, p.values + q.values)
  {
    assert pre + [t] + post == pre + ([t] + post);
    SplitAppend(pre, [t] + post, valueFlags);
    assert ([t] + post)[1..] == post;
  }

  /** A declared value flag takes the token after it as its value, whatever that token looks
      like (even `-x`), and both leave the positional arguments and the flags. */
  lemma SplitValue(pre: seq<string>, f: string, v: string, post: seq<string>, valueFlags: seq<string>)
    requires Closed(pre, valueFlags) && IsValueFlag(f, valueFlags)
    ensures var p, q := Split(pre, valueFlags), Split(post, valueFlags);
      Split(pre + [f, v] + post, valueFlags)
        == Partitioned(p.args + q.args, p.flags + q.flags, p.values + (map[f := v] + q.values))
  {
    assert pre + [f, v] + post == pre + ([f, v] + post);
    SplitAppend(pre, [f, v] + post, valueFlags);
    assert ([f, v] + post)[2..] == post;
  }

  /** The value recorded for a flag is the one given with its last occurrence: a value flag
      that is not set again later keeps the value given here, whatever came before. */
  lemma LastValueWins(pre: seq<string>, f: string, v: string, post: seq<string>, valueFlags: seq<string>)
    requires Closed(pre, valueFlags) && IsValueFlag(f, valueFlags)
    requires f !in Split(post, valueFlags).values
    ensures f in Split(pre + [f, v] + post, valueFlags).values
    ensures Split(pre + [f, v] + post, valueFlags).values[f] == v
  {
    SplitValue(pre, f, v, post, valueFlags);
  }

  /** A value flag with nothing after it is dropped. */
  lemma SplitTrailingValueFlag(pre: seq<string>, f: string, valueFlags: seq<string>)
    requires Closed(pre, valueFlags) && IsValueFlag(f, valueFlags)
    ensures Split(pre + [f], valueFlags) == Split(pre, valueFlags)
  {
    SplitAppend(pre, [f], valueFlags);
    var p := Split(pre, valueFlags);
    assert p.args + [] == p.args && p.flags + [] == p.flags && p.values + map[] == p.values;
  }

  /** A short-flag cluster is split into one flag per character. */
  lemma ClusterExample()
    ensures Split(["-abc"], []) == Partitioned([], ["-a", "-b", "-c"], map[])
  {
    assert !StartsWith("-abc", "--") by { assert "-abc"[..2][1] == 'a'; }
    assert ["-abc"][1..] == [];
    assert Expand("-abc") == ["-a", "-b", "-c"];
    assert Expand("-abc") + [] == ["-a", "-b", "-c"];
  }
}
