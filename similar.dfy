/** The typo fallback of the router: commands sorted by word count, scanned bin by bin
    for the closest alias by edit distance. */
module Similar {
  import opened Base
  import opened EditDistance

  /** The number of words the fallback assumes an alias has: its whitespace characters plus one. */
  function WordCount(alias: string): nat
  {
    WhitespaceCount(alias) + 1
  }

  /** Places `x` after every leading element whose word count is at least its own. */
  function InsertByCount(sorted: seq<string>, x: string): seq<string>
    decreases |sorted|
  {
    if sorted == [] then [x]
    else if WordCount(sorted[0]) < WordCount(x) then [x] + sorted
    else [sorted[0]] + InsertByCount(sorted[1..], x)
  }

  /** `sort_by` with the whitespace counts compared in reverse: a stable sort into
      descending word count. */
  function SortByWordCount(cmds: seq<string>): seq<string>
    decreases |cmds|
  {
    if cmds == [] then [] else InsertByCount(SortByWordCount(cmds[..|cmds| - 1]), cmds[|cmds| - 1])
  }

  predicate NonIncreasing(s: seq<string>)
  {
    forall i, j :: 0 <= i < j < |s| ==> WordCount(s[i]) >= WordCount(s[j])
  }

  /** The elements of `s` with word count `w`, in their order in `s`. */
  function WithCount(s: seq<string>, w: nat): seq<string>
  {
    if s == [] then [] else (if WordCount(s[0]) == w then [s[0]] else []) + WithCount(s[1..], w)
  }

  lemma {:induction false} WithCountAppend(a: seq<string>, b: seq<string>, w: nat)
    ensures WithCount(a + b, w) == WithCount(a, w) + WithCount(b, w)
  {
    if a == [] {
      assert a + b == b;
    } else {
      assert (a + b)[0] == a[0];
      assert (a + b)[1..] == a[1..] + b;
      WithCountAppend(a[1..], b, w);
    }
  }

  lemma {:induction false} WithCountNone(s: seq<string>, w: nat)
    requires forall k :: 0 <= k < |s| ==> WordCount(s[k]) != w
    ensures WithCount(s, w) == []
  {
    if s != [] {
      WithCountNone(s[1..], w);
    }
  }

  lemma {:induction false} InsertByCountPerm(sorted: seq<string>, x: string)
    ensures multiset(InsertByCount(sorted, x)) == multiset(sorted) + multiset{x}
    decreases |sorted|
  {
    if sorted != [] && WordCount(sorted[0]) >= WordCount(x) {
      InsertByCountPerm(sorted[1..], x);
      assert sorted == [sorted[0]] + sorted[1..];
    }
  }

  predicate AtMost(s: seq<string>, w: nat)
  {
    forall k :: 0 <= k < |s| ==> WordCount(s[k]) <= w
  }

  lemma {:induction false} InsertByCountBound(sorted: seq<string>, x: string, w: nat)
    requires AtMost(sorted, w) && WordCount(x) <= w
    ensures AtMost(InsertByCount(sorted, x), w)
    decreases |sorted|
  {
    if sorted != [] && WordCount(sorted[0]) >= WordCount(x) {
      InsertByCountBound(sorted[1..], x, w);
      var r := InsertByCount(sorted, x);
      assert forall k :: 1 <= k < |r| ==> r[k] == InsertByCount(sorted[1..], x)[k - 1];
    }
  }

  lemma {:induction false} InsertByCountOrdered(sorted: seq<string>, x: string)
    requires NonIncreasing(sorted)
    ensures NonIncreasing(InsertByCount(sorted, x))
    decreases |sorted|
  {
    if sorted != [] {
      var r := InsertByCount(sorted, x);
      if WordCount(sorted[0]) >= WordCount(x) {
        var rest := InsertByCount(sorted[1..], x);
        InsertByCountOrdered(sorted[1..], x);
        assert AtMost(sorted[1..], WordCount(sorted[0])) by {
          assert forall k :: 0 <= k < |sorted[1..]| ==> sorted[1..][k] == sorted[k + 1];
        }
        InsertByCountBound(sorted[1..], x, WordCount(sorted[0]));
        assert forall k :: 1 <= k < |r| ==> r[k] == rest[k - 1];
      } else {
        assert forall k :: 1 <= k < |r| ==> r[k] == sorted[k - 1];
        assert forall k :: 0 <= k < |sorted| ==> WordCount(sorted[k]) <= WordCount(sorted[0]);
      }
    }
  }

  lemma {:induction false} InsertByCountStable(sorted: seq<string>, x: string, w: nat)
    requires NonIncreasing(sorted)
    ensures WithCount(InsertByCount(sorted, x), w) == WithCount(sorted, w) + (if WordCount(x) == w then [x] else [])
    decreases |sorted|
  {
    var r := InsertByCount(sorted, x);
    if sorted == [] {
    } else if WordCount(sorted[0]) < WordCount(x) {
      assert r[0] == x && r[1..] == sorted;
      if WordCount(x) == w {
        WithCountNone(sorted, w);
      }
    } else {
      var rest := InsertByCount(sorted[1..], x);
      InsertByCountStable(sorted[1..], x, w);
      assert r[0] == sorted[0] && r[1..] == rest;
    }
  }

  lemma {:induction false} SortPerm(cmds: seq<string>)
    ensures multiset(SortByWordCount(cmds)) == multiset(cmds)
    decreases |cmds|
  {
    if cmds != [] {
      var init, x := cmds[..|cmds| - 1], cmds[|cmds| - 1];
      SortPerm(init);
      InsertByCountPerm(SortByWordCount(init), x);
      assert cmds == init + [x];
    }
  }

  lemma {:induction false} SortOrdered(cmds: seq<string>)
    ensures NonIncreasing(SortByWordCount(cmds))
    decreases |cmds|
  {
    if cmds != [] {
      var init, x := cmds[..|cmds| - 1], cmds[|cmds| - 1];
      SortOrdered(init);
      InsertByCountOrdered(SortByWordCount(init), x);
    }
  }

  lemma {:induction false} SortStable(cmds: seq<string>, w: nat)
    ensures WithCount(SortByWordCount(cmds), w) == WithCount(cmds, w)
    decreases |cmds|
  {
    if cmds != [] {
      var init, x := cmds[..|cmds| - 1], cmds[|cmds| - 1];
      SortStable(init, w);
      SortOrdered(init);
      InsertByCountStable(SortByWordCount(init), x, w);
      assert cmds == init + [x];
      WithCountAppend(init, [x], w);
      assert [x][1..] == [];
    }
  }

  /** The sort is a permutation into non-increasing word count, and stable: the commands of
      each word count keep their relative order. */
  lemma SortByWordCountCorrect(cmds: seq<string>)
    ensures NonIncreasing(SortByWordCount(cmds))
    ensures multiset(SortByWordCount(cmds)) == multiset(cmds)
    ensures forall w :: WithCount(SortByWordCount(cmds), w) == WithCount(cmds, w)
  {
    SortOrdered(cmds);
    SortPerm(cmds);
    forall w ensures WithCount(SortByWordCount(cmds), w) == WithCount(cmds, w) {
      SortStable(cmds, w);
    }
  }

  /** What the fallback does when it finishes scanning: nothing, or ask whether `cmd` was meant,
      and if so remove `drainLength` tokens. */
  datatype Suggestion = NoSuggestion | Offer(cmd: string, drainLength: nat)

  /** The first `n` search words joined by spaces: what a command of `n` words is compared with. */
  function Query(search: seq<string>, n: nat): string
  {
    Join(search[..if |search| < n then |search| else n], " ")
  }

  /** The loop of `lookup_similar` from index `i`, with its variables `distance`, `bin_length`
      and `found_cmd`. */
  function SuggestFrom(search: seq<string>, cmds: seq<string>, i: nat, distance: nat,
                       binLength: nat, found: string): Suggestion
    requires i <= |cmds|
    decreases |cmds| - i
  {
    if i == |cmds| then NoSuggestion
    else
      var length := WordCount(cmds[i]);
      if binLength != length && binLength > 0 && 0 < distance < 4 then Offer(found, length)
      else
        var d := if binLength != length then 0 else distance;
        var f := if binLength != length then "" else found;
        var chk := Levenshtein(cmds[i], Query(search, length));
        if chk < d || d == 0 then SuggestFrom(search, cmds, i + 1, chk, length, cmds[i])
        else SuggestFrom(search, cmds, i + 1, d, length, f)
  }

  function Suggest(search: seq<string>, cmds: seq<string>): Suggestion
  {
    SuggestFrom(search, cmds, 0, 0, 0, "")
  }

  /** Every command of word count `w` before index `i` is some distance away from its query. */
  predicate NoExact(search: seq<string>, cmds: seq<string>, i: nat, w: nat)
    requires i <= |cmds|
  {
    forall j :: 0 <= j < i && WordCount(cmds[j]) == w ==> Levenshtein(cmds[j], Query(search, w)) > 0
  }

  /** What the scan knows before index `i`. */
  ghost predicate SuggestInv(search: seq<string>, cmds: seq<string>, i: nat, distance: nat,
                             binLength: nat, found: string)
  {
    i <= |cmds|
    && (i == 0 ==> binLength == 0 && distance == 0)
    && (i > 0 ==> binLength == WordCount(cmds[i - 1]))
    && (distance > 0 ==>
          (exists k :: 0 <= k < i && cmds[k] == found)
          && WordCount(found) == binLength
          && distance == Levenshtein(found, Query(search, binLength)))
    && (i > 0 && NoExact(search, cmds, i, binLength) ==>
          distance > 0
          && forall j :: 0 <= j < i && WordCount(cmds[j]) == binLength ==>
               Levenshtein(cmds[j], Query(search, binLength)) >= distance)
  }

  /** What an offer satisfies: a command from the list, one to three edits away from its query,
      from a bin of more words than the last command has, with a drain length that is the word
      count of a later bin. */
  ghost predicate GoodOffer(search: seq<string>, cmds: seq<string>, s: Suggestion)
    requires |cmds| > 0
  {
    s.Offer? ==>
      (exists k :: 0 <= k < |cmds| && cmds[k] == s.cmd)
      && 1 <= Levenshtein(s.cmd, Query(search, WordCount(s.cmd))) <= 3
      && (exists j :: 0 <= j < |cmds| && WordCount(cmds[j]) == s.drainLength)
      && WordCount(cmds[|cmds| - 1]) <= s.drainLength < WordCount(s.cmd)
      && (NoExact(search, cmds, |cmds|, WordCount(s.cmd)) ==>
            forall j :: 0 <= j < |cmds| && WordCount(cmds[j]) == WordCount(s.cmd) ==>
              Levenshtein(cmds[j], Query(search, WordCount(s.cmd))) >= Levenshtein(s.cmd, Query(search, WordCount(s.cmd))))
  }

  /** The state after one iteration that does not end the scan. */
  function Next(search: seq<string>, cmds: seq<string>, i: nat, distance: nat,
                binLength: nat, found: string): (nat, string)
    requires i < |cmds|
  {
    var length := WordCount(cmds[i]);
    var d := if binLength != length then 0 else distance;
    var f := if binLength != length then "" else found;
    var chk := Levenshtein(cmds[i], Query(search, length));
    if chk < d || d == 0 then (chk, cmds[i]) else (d, f)
  }

  lemma SuggestStep(search: seq<string>, cmds: seq<string>, i: nat, distance: nat,
                    binLength: nat, found: string)
    requires NonIncreasing(cmds) && i < |cmds|
    requires SuggestInv(search, cmds, i, distance, binLength, found)
    requires !(binLength != WordCount(cmds[i]) && binLength > 0 && 0 < distance < 4)
    ensures var (d, f) := Next(search, cmds, i, distance, binLength, found);
      SuggestInv(search, cmds, i + 1, d, WordCount(cmds[i]), f)
      && SuggestFrom(search, cmds, i, distance, binLength, found)
         == SuggestFrom(search, cmds, i + 1, d, WordCount(cmds[i]), f)
  {
    var length := WordCount(cmds[i]);
    if binLength != length && i > 0 {
      forall j | 0 <= j < i ensures WordCount(cmds[j]) != length {
        assert WordCount(cmds[j]) >= WordCount(cmds[i - 1]);
      }
    }
    var (d, f) := Next(search, cmds, i, distance, binLength, found);
    if d > 0 {
      assert exists k :: 0 <= k < i + 1 && cmds[k] == f by {
        if f == cmds[i] {
          assert cmds[i] == f;
        }
      }
    }
  }

  lemma SuggestOfferCase(search: seq<string>, cmds: seq<string>, i: nat, distance: nat,
                         binLength: nat, found: string)
    requires NonIncreasing(cmds) && i < |cmds|
    requires SuggestInv(search, cmds, i, distance, binLength, found)
    requires binLength != WordCount(cmds[i]) && binLength > 0 && 0 < distance < 4
    ensures GoodOffer(search, cmds, Offer(found, WordCount(cmds[i])))
  {
    var length := WordCount(cmds[i]);
    assert WordCount(cmds[|cmds| - 1]) <= length <= binLength;
    forall j | i <= j < |cmds| ensures WordCount(cmds[j]) != binLength {
      assert WordCount(cmds[j]) <= length;
    }
    assert NoExact(search, cmds, |cmds|, binLength) ==> NoExact(search, cmds, i, binLength);
  }

  lemma {:induction false} SuggestFromGood(search: seq<string>, cmds: seq<string>, i: nat,
                                           distance: nat, binLength: nat, found: string)
    requires NonIncreasing(cmds) && |cmds| > 0
    requires SuggestInv(search, cmds, i, distance, binLength, found)
    ensures GoodOffer(search, cmds, SuggestFrom(search, cmds, i, distance, binLength, found))
    decreases |cmds| - i
  {
    if i < |cmds| {
      if binLength != WordCount(cmds[i]) && binLength > 0 && 0 < distance < 4 {
        SuggestOfferCase(search, cmds, i, distance, binLength, found);
      } else {
        SuggestStep(search, cmds, i, distance, binLength, found);
        var (d, f) := Next(search, cmds, i, distance, binLength, found);
        SuggestFromGood(search, cmds, i + 1, d, WordCount(cmds[i]), f);
      }
    }
  }

  /** An offer names a listed command one to three edits from its query; the tokens it removes
      number fewer than that command's words; it is never a command of the last bin; and when
      no command of its bin matches exactly, no command of its bin is closer. */
  lemma SuggestOffer(search: seq<string>, cmds: seq<string>)
    requires NonIncreasing(cmds) && |cmds| > 0
    ensures GoodOffer(search, cmds, Suggest(search, cmds))
  {
    SuggestFromGood(search, cmds, 0, 0, 0, "");
  }

  /** With every command of one word count, as when only single-word commands are
      registered, the fallback never suggests anything. */
  lemma SingleBinNoSuggestion(search: seq<string>, cmds: seq<string>)
    requires forall i, j :: 0 <= i < j < |cmds| ==> WordCount(cmds[i]) == WordCount(cmds[j])
    ensures Suggest(search, cmds) == NoSuggestion
  {
    if |cmds| > 0 {
      SuggestOffer(search, cmds);
      assert forall k :: 0 <= k < |cmds| ==> WordCount(cmds[k]) == WordCount(cmds[|cmds| - 1]);
    }
  }

  const ConfirmPrefix: string := "No command with that name exists, but a similar command with the name '"
  const ConfirmSuffix: string := "' does exist.  Is this the command you wish to run?"

  function ConfirmMessage(cmd: string): string
  {
    ConfirmPrefix + cmd + ConfirmSuffix
  }

  /** The index of the first argument that is not a flag, or the length when there is none. */
  function NonFlagIndex(args: seq<string>): (i: nat)
    ensures i <= |args|
    ensures forall k :: 0 <= k < i ==> IsFlag(args[k])
    ensures i < |args| ==> !IsFlag(args[i])
  {
    if args == [] || !IsFlag(args[0]) then 0 else NonFlagIndex(args[1..]) + 1
  }

  /** `position(|a| !a.starts_with("-")).unwrap_or(0)`. */
  function FirstNonFlag(args: seq<string>): nat
  {
    var i := NonFlagIndex(args);
    if i == |args| then 0 else i
  }

  /** The arguments that are not flags, in order. */
  function NonFlags(args: seq<string>): (r: seq<string>)
    ensures forall k :: 0 <= k < |r| ==> !IsFlag(r[k])
    ensures |r| <= |args|
  {
    if args == [] then [] else (if IsFlag(args[0]) then [] else [args[0]]) + NonFlags(args[1..])
  }

  /** What `lookup_similar` returns, and the arguments it leaves. */
  datatype Fallback = Fallback(found: Option<string>, rest: seq<string>)

  /** `lookup_similar` over commands already sorted, with the user's answer to the
      confirmation message given by `accept`. */
  function SimilarOf(args: seq<string>, cmds: seq<string>, accept: string -> bool): Fallback
  {
    match Suggest(NonFlags(args), cmds)
    case NoSuggestion => Fallback(None, args)
    case Offer(c, n) =>
      if accept(ConfirmMessage(c)) then
        var start := FirstNonFlag(args);
        Fallback(Some(c), Drain(args, start, if start + n < |args| then start + n else |args|))
      else Fallback(None, args)
  }

  /** A confirmed suggestion is a listed command close to the query, and fewer tokens are
      removed than it has words; without one, the arguments are left as they were. */
  lemma SimilarOfCorrect(args: seq<string>, cmds: seq<string>, accept: string -> bool)
    requires NonIncreasing(cmds)
    ensures var r := SimilarOf(args, cmds, accept);
      (r.found.None? ==> r.rest == args)
      && (r.found.Some? ==>
            (exists k :: 0 <= k < |cmds| && cmds[k] == r.found.value)
            && accept(ConfirmMessage(r.found.value))
            && 1 <= Levenshtein(r.found.value, Query(NonFlags(args), WordCount(r.found.value))) <= 3
            && |args| - WordCount(r.found.value) < |r.rest| <= |args|)
  {
    if |cmds| > 0 {
      SuggestOffer(NonFlags(args), cmds);
    }
  }
}
