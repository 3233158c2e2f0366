/** The trie walk of `lookup_handler`, stated one token at a time. */
module Resolver {
  import opened Base
  import opened Trie

  /** The walk's variables (`child`, `start`, `length`, `h_alias`, and whether it broke off),
      plus two that only the proofs read: the lowered segments matched since the last reset,
      and the position just after the last of them. Those two are ordinary fields because
      `Step` and `Scan` return this type, and a returned value with ghost fields could only
      be used by ghost code; `LookupHandler` never reads them. */
  datatype ScanState = ScanState(node: Node, start: nat, length: nat, hAlias: Option<string>,
                                 stopped: bool, path: seq<string>, upto: nat)

  function Initial(root: Node): ScanState
  {
    ScanState(root, 0, 0, None, false, [], 0)
  }

  /** One iteration of the walk over the token at `pos`. */
  function Step(root: Node, st: ScanState, pos: nat, tok: string): ScanState
  {
    if IsFlag(tok) then st
    else
      var key := Lower(tok);
      if key in st.node.children then
        var next := st.node.children[key];
        ScanState(next,
                  if st.length == 0 then pos else st.start,
                  st.length + 1,
                  if next.handlerAlias.Some? then next.handlerAlias else st.hAlias,
                  false,
                  st.path + [key],
                  pos + 1)
      else if st.hAlias.Some? then st.(stopped := true)
      else st.(node := root, length := 0, path := [])
  }

  /** The walk from `pos` on, until the tokens run out or it breaks off. */
  function ScanFrom(root: Node, args: seq<string>, pos: nat, st: ScanState): ScanState
    decreases |args| - pos
  {
    if pos >= |args| || st.stopped then st
    else ScanFrom(root, args, pos + 1, Step(root, st, pos, args[pos]))
  }

  lemma ScanFromStep(root: Node, args: seq<string>, pos: nat, st: ScanState)
    requires pos < |args| && !st.stopped
    ensures ScanFrom(root, args, pos, st) == ScanFrom(root, args, pos + 1, Step(root, st, pos, args[pos]))
  {
  }

  function Scan(root: Node, args: seq<string>): ScanState
  {
    ScanFrom(root, args, 0, Initial(root))
  }

  /** The lowered non-flag tokens of `ts`, in order: the segments a walk over `ts` can match. */
  function Segments(ts: seq<string>): seq<string>
  {
    if ts == [] then [] else (if IsFlag(ts[0]) then [] else [Lower(ts[0])]) + Segments(ts[1..])
  }

  /** The handler alias of the longest non-empty prefix of `p` that carries one: the walk lets
      a deeper node's handler replace the one it found further up. */
  function LastHandler(n: Node, p: seq<string>): Option<string>
    decreases |p|
  {
    if p == [] then None
    else if HandlerAt(n, p).Some? then HandlerAt(n, p)
    else LastHandler(n, p[..|p| - 1])
  }

  predicate AllFlags(args: seq<string>, i: nat, j: nat)
    requires i <= j <= |args|
  {
    forall k :: i <= k < j ==> IsFlag(args[k])
  }

  /** No token after the match can extend it: the first segment after `upto` names no child. */
  predicate NoExtension(args: seq<string>, st: ScanState)
    requires st.upto <= |args|
  {
    forall j :: st.upto <= j < |args| && !IsFlag(args[j]) && AllFlags(args, st.upto, j) ==>
      Lower(args[j]) !in st.node.children
  }

  /** What the walk knows after scanning `args[..pos]`. */
  ghost predicate Inv(root: Node, args: seq<string>, pos: nat, st: ScanState)
  {
    pos <= |args|
    && (st.length == 0 ==> st.node == root && st.path == [] && st.hAlias.None? && !st.stopped)
    && (st.length > 0 ==>
          st.start < st.upto <= pos
          && st.start + st.length <= st.upto
          && |st.path| == st.length
          && Walk(root, st.path) == Some(st.node)
          && st.hAlias == LastHandler(root, st.path)
          && st.path == Segments(args[st.start..st.upto])
          && !IsFlag(args[st.start])
          && (!st.stopped ==> AllFlags(args, st.upto, pos)))
    && (st.stopped ==> st.hAlias.Some? && st.upto <= |args| && NoExtension(args, st))
  }

  lemma {:induction false} SegmentsAppend(a: seq<string>, b: seq<string>)
    ensures Segments(a + b) == Segments(a) + Segments(b)
  {
    if a == [] {
      assert a + b == b;
    } else {
      assert (a + b)[0] == a[0];
      assert (a + b)[1..] == a[1..] + b;
      SegmentsAppend(a[1..], b);
      var head := if IsFlag(a[0]) then [] else [Lower(a[0])];
      assert Segments(a + b) == head + (Segments(a[1..]) + Segments(b));
    }
  }

  lemma {:induction false} SegmentsLength(ts: seq<string>)
    ensures |Segments(ts)| <= |ts|
  {
    if ts != [] {
      SegmentsLength(ts[1..]);
    }
  }

  lemma {:induction false} SegmentsOfFlags(args: seq<string>, i: nat, j: nat)
    requires i <= j <= |args| && AllFlags(args, i, j)
    ensures Segments(args[i..j]) == []
    decreases j - i
  {
    if i < j {
      assert args[i..j][1..] == args[i + 1..j];
      SegmentsOfFlags(args, i + 1, j);
    }
  }

  /** The segments of a match grow by the lowered token that extends it; flags skipped in
      between add none. */
  lemma ExtendSegments(args: seq<string>, start: nat, upto: nat, pos: nat, path: seq<string>)
    requires start < upto <= pos < |args|
    requires path == Segments(args[start..upto]) && AllFlags(args, upto, pos) && !IsFlag(args[pos])
    ensures Segments(args[start..pos + 1]) == path + [Lower(args[pos])]
  {
    var tok := args[pos];
    assert Segments([tok]) == [Lower(tok)] + Segments([]);
    assert args[start..pos + 1] == args[start..upto] + args[upto..pos] + [tok];
    SegmentsAppend(args[start..upto] + args[upto..pos], [tok]);
    SegmentsAppend(args[start..upto], args[upto..pos]);
    SegmentsOfFlags(args, upto, pos);
  }

  /** A token that names a child extends the match. */
  lemma StepMatchInv(root: Node, args: seq<string>, pos: nat, st: ScanState)
    requires Inv(root, args, pos, st) && pos < |args| && !st.stopped
    requires !IsFlag(args[pos]) && Lower(args[pos]) in st.node.children
    ensures Inv(root, args, pos + 1, Step(root, st, pos, args[pos]))
  {
    var tok := args[pos];
    var key := Lower(tok);
    var st' := Step(root, st, pos, tok);
    WalkAppend(root, st.path, key);
    assert (st.path + [key])[..|st.path|] == st.path;
    if st.length == 0 {
      assert args[pos..pos + 1] == [tok];
      assert Segments([tok]) == [key] + Segments([]);
    } else {
      ExtendSegments(args, st.start, st.upto, pos, st.path);
    }
    SegmentsLength(args[st'.start..st'.upto]);
  }

  lemma StepInv(root: Node, args: seq<string>, pos: nat, st: ScanState)
    requires Inv(root, args, pos, st) && pos < |args| && !st.stopped
    ensures Inv(root, args, pos + 1, Step(root, st, pos, args[pos]))
  {
    var tok := args[pos];
    if !IsFlag(tok) {
      if Lower(tok) in st.node.children {
        StepMatchInv(root, args, pos, st);
      } else if st.hAlias.Some? {
        forall j | st.upto <= j < |args| && !IsFlag(args[j]) && AllFlags(args, st.upto, j)
          ensures Lower(args[j]) !in st.node.children
        {
        }
      }
    }
  }

  lemma {:induction false} ScanFromInv(root: Node, args: seq<string>, pos: nat, st: ScanState)
    requires Inv(root, args, pos, st)
    ensures Inv(root, args, |args|, ScanFrom(root, args, pos, st))
    decreases |args| - pos
  {
    if pos < |args| && !st.stopped {
      StepInv(root, args, pos, st);
      ScanFromInv(root, args, pos + 1, Step(root, st, pos, args[pos]));
    }
  }

  /** On a hit, the walk's span lies inside the arguments; its non-flag tokens, lowered,
      spell a trie path with exactly `length` segments; the handler is the deepest one on that
      path; and the first segment after the span cannot extend it. */
  lemma ScanHit(root: Node, args: seq<string>)
    ensures var s := Scan(root, args);
      s.hAlias.Some? ==>
        && s.length > 0
        && s.start + s.length <= s.upto <= |args|
        && !IsFlag(args[s.start])
        && Segments(args[s.start..s.upto]) == s.path
        && |s.path| == s.length
        && Walk(root, s.path) == Some(s.node)
        && s.hAlias == LastHandler(root, s.path)
        && NoExtension(args, s)
  {
    ScanFromInv(root, args, 0, Initial(root));
  }

  /** The handler the walk reports is stored at some trie path. */
  lemma {:induction false} LastHandlerStored(n: Node, p: seq<string>)
    requires LastHandler(n, p).Some?
    ensures exists q :: HandlerAt(n, q) == LastHandler(n, p)
    decreases |p|
  {
    if HandlerAt(n, p).None? {
      LastHandlerStored(n, p[..|p| - 1]);
    }
  }

  /** The walk's state after matching the first `k` tokens of a registered path exactly. */
  function ExactState(root: Node, segs: seq<string>, k: nat): ScanState
    requires k <= |segs| && HasPath(root, segs[..k])
  {
    ScanState(Walk(root, segs[..k]).value, 0, k, LastHandler(root, segs[..k]), false, segs[..k], k)
  }

  lemma {:induction false} ScanExactFrom(root: Node, segs: seq<string>, k: nat)
    requires k <= |segs| && HasPath(root, segs)
    requires forall i :: 0 <= i < |segs| ==> !IsFlag(segs[i]) && IsLower(segs[i])
    ensures HasPath(root, segs[..k])
    ensures ScanFrom(root, segs, k, ExactState(root, segs, k))
         == ScanState(Walk(root, segs).value, 0, |segs|, LastHandler(root, segs), false, segs, |segs|)
    decreases |segs| - k
  {
    PrefixHasPath(root, segs, segs[..k]);
    if k < |segs| {
      PrefixHasPath(root, segs, segs[..k + 1]);
      assert segs[..k + 1] == segs[..k] + [segs[k]];
      WalkAppend(root, segs[..k], segs[k]);
      assert (segs[..k] + [segs[k]])[..k] == segs[..k];
      assert Step(root, ExactState(root, segs, k), k, segs[k]) == ExactState(root, segs, k + 1);
      ScanExactFrom(root, segs, k + 1);
    } else {
      assert segs[..k] == segs;
    }
  }

  /** Resolving exactly the segments of a registered path finds that path's handler and spans
      all of the tokens. */
  lemma ScanExactPath(root: Node, segs: seq<string>, h: string)
    requires |segs| > 0
    requires forall i :: 0 <= i < |segs| ==> !IsFlag(segs[i]) && IsLower(segs[i])
    requires HandlerAt(root, segs) == Some(h)
    ensures Scan(root, segs).hAlias == Some(h)
    ensures Scan(root, segs).start == 0 && Scan(root, segs).length == |segs|
  {
    assert segs[..0] == [];
    assert Initial(root) == ExactState(root, segs, 0);
    ScanExactFrom(root, segs, 0);
    assert segs[..|segs|] == segs;
  }
}
