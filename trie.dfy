/** The command registry: a tree of router nodes whose edges are alias segments. */
module Trie {
  import opened Base

  /** One router node: its child routers keyed by segment, and the handler alias ending here. */
  datatype Node = Node(children: map<string, Node>, handlerAlias: Option<string>)

  /** `CliRouter::new()` as a node. */
  const Empty: Node := Node(map[], None)

  /** The node reached from `n` along `path`, if every segment names a child. */
  function Walk(n: Node, path: seq<string>): Option<Node>
    decreases |path|
  {
    if path == [] then Some(n)
    else if path[0] in n.children then Walk(n.children[path[0]], path[1..])
    else None
  }

  predicate HasPath(n: Node, path: seq<string>)
  {
    Walk(n, path).Some?
  }

  /** The handler alias stored at the end of `path`, if the path exists and carries one. */
  function HandlerAt(n: Node, path: seq<string>): Option<string>
  {
    match Walk(n, path)
    case None => None
    case Some(m) => m.handlerAlias
  }

  predicate IsPrefix<T(==)>(q: seq<T>, p: seq<T>)
  {
    |q| <= |p| && p[..|q|] == q
  }

  /** One pass of the inner loop of `add`: follow `path`, creating missing children
      (`entry().or_insert`), and set the last node's handler alias. */
  function Insert(n: Node, path: seq<string>, h: string): Node
    decreases |path|
  {
    if path == [] then n.(handlerAlias := Some(h))
    else
      var child := if path[0] in n.children then n.children[path[0]] else Empty;
      n.(children := n.children[path[0] := Insert(child, path[1..], h)])
  }

  /** The outer loop of `add`: every path of the queue, in order. */
  function InsertAll(n: Node, paths: seq<seq<string>>, h: string): Node
    decreases |paths|
  {
    if paths == [] then n else InsertAll(Insert(n, paths[0], h), paths[1..], h)
  }

  lemma WalkEmpty(q: seq<string>)
    ensures HandlerAt(Empty, q) == None
    ensures HasPath(Empty, q) <==> q == []
  {
  }

  lemma {:induction false} WalkAppend(n: Node, p: seq<string>, s: string)
    requires HasPath(n, p)
    ensures Walk(n, p + [s]) == (var m := Walk(n, p).value; if s in m.children then Some(m.children[s]) else None)
    decreases |p|
  {
    if p != [] {
      assert (p + [s])[1..] == p[1..] + [s];
      WalkAppend(n.children[p[0]], p[1..], s);
    }
  }

  lemma {:induction false} PrefixHasPath(n: Node, p: seq<string>, q: seq<string>)
    requires HasPath(n, p) && IsPrefix(q, p)
    ensures HasPath(n, q)
    decreases |p|
  {
    if q != [] {
      assert p[0] == q[0];
      assert IsPrefix(q[1..], p[1..]) by { assert p[1..][..|q| - 1] == p[..|q|][1..]; }
      PrefixHasPath(n.children[p[0]], p[1..], q[1..]);
    }
  }

  /** After inserting `p`, the end of `p` carries `h`, and every other path carries what it did before. */
  lemma {:induction false} InsertHandlerAt(n: Node, p: seq<string>, h: string, q: seq<string>)
    ensures HandlerAt(Insert(n, p, h), q) == if q == p then Some(h) else HandlerAt(n, q)
    decreases |p|
  {
    if p != [] && q != [] && q[0] == p[0] {
      var child := if p[0] in n.children then n.children[p[0]] else Empty;
      InsertHandlerAt(child, p[1..], h, q[1..]);
      if p[0] !in n.children {
        WalkEmpty(q[1..]);
      }
      assert q == p <==> q[1..] == p[1..] by {
        if q[1..] == p[1..] { assert q == [q[0]] + q[1..] && p == [p[0]] + p[1..]; }
      }
    }
  }

  /** Inserting creates exactly the prefixes of `p`; no existing path is lost. */
  lemma {:induction false} InsertHasPath(n: Node, p: seq<string>, h: string, q: seq<string>)
    ensures HasPath(Insert(n, p, h), q) <==> HasPath(n, q) || IsPrefix(q, p)
    decreases |p|
  {
    if p != [] && q != [] && q[0] == p[0] {
      var child := if p[0] in n.children then n.children[p[0]] else Empty;
      InsertHasPath(child, p[1..], h, q[1..]);
      if p[0] !in n.children {
        WalkEmpty(q[1..]);
      }
      assert IsPrefix(q, p) <==> IsPrefix(q[1..], p[1..]) by {
        if |q| <= |p| {
          assert p[..|q|] == [p[0]] + p[1..][..|q| - 1];
          assert q == [q[0]] + q[1..];
        }
      }
    }
  }

  /** Inserting never removes a child of an existing node. */
  lemma {:induction false} InsertKeepsChildren(n: Node, p: seq<string>, h: string, q: seq<string>)
    requires HasPath(n, q)
    ensures HasPath(Insert(n, p, h), q)
    ensures Walk(n, q).value.children.Keys <= Walk(Insert(n, p, h), q).value.children.Keys
    decreases |p|
  {
    if q == [] {
    } else if p != [] && q[0] == p[0] {
      InsertKeepsChildren(n.children[p[0]], p[1..], h, q[1..]);
    }
  }

  /** The registration property of `add`: each queued path ends at `h`; all other paths keep their handler. */
  lemma {:induction false} InsertAllHandlerAt(n: Node, ps: seq<seq<string>>, h: string, q: seq<string>)
    ensures HandlerAt(InsertAll(n, ps, h), q) == if q in ps then Some(h) else HandlerAt(n, q)
    decreases |ps|
  {
    if ps != [] {
      InsertHandlerAt(n, ps[0], h, q);
      InsertAllHandlerAt(Insert(n, ps[0], h), ps[1..], h, q);
      assert q in ps <==> q == ps[0] || q in ps[1..] by { assert ps == [ps[0]] + ps[1..]; }
    }
  }

  /** `add` only ever creates prefixes of the queued paths. */
  lemma {:induction false} InsertAllHasPath(n: Node, ps: seq<seq<string>>, h: string, q: seq<string>)
    ensures HasPath(InsertAll(n, ps, h), q) <==> HasPath(n, q) || exists k :: 0 <= k < |ps| && IsPrefix(q, ps[k])
    decreases |ps|
  {
    if ps != [] {
      InsertHasPath(n, ps[0], h, q);
      InsertAllHasPath(Insert(n, ps[0], h), ps[1..], h, q);
      if HasPath(InsertAll(n, ps, h), q) && !HasPath(n, q) {
        if IsPrefix(q, ps[0]) {
          assert IsPrefix(q, ps[0 + 0]);
        } else {
          var k :| 0 <= k < |ps[1..]| && IsPrefix(q, ps[1..][k]);
          assert IsPrefix(q, ps[k + 1]);
        }
      }
      if exists k :: 0 <= k < |ps| && IsPrefix(q, ps[k]) {
        var k :| 0 <= k < |ps| && IsPrefix(q, ps[k]);
        if k > 0 {
          assert IsPrefix(q, ps[1..][k - 1]);
        }
      }
    }
  }
}
