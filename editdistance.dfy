/** The Levenshtein distance the typo fallback ranks commands by, over characters. */
module EditDistance {

  function Min3(a: nat, b: nat, c: nat): (m: nat)
    ensures m <= a && m <= b && m <= c
    ensures m == a || m == b || m == c
  {
    if a <= b && a <= c then a else if b <= c then b else c
  }

  function Max(a: nat, b: nat): nat
  {
    if a < b then b else a
  }

  function Diff(a: nat, b: nat): nat
  {
    if a < b then b - a else a - b
  }

  /** The least number of single-character insertions, deletions and substitutions turning
      `a` into `b`. */
  function Levenshtein(a: string, b: string): nat
    decreases |a| + |b|
  {
    if |a| == 0 then |b|
    else if |b| == 0 then |a|
    else Min3(Levenshtein(a[1..], b[1..]) + (if a[0] == b[0] then 0 else 1),
              Levenshtein(a[1..], b) + 1,
              Levenshtein(a, b[1..]) + 1)
  }

  /** The distance is zero exactly between equal strings. */
  lemma {:induction false} LevenshteinZero(a: string, b: string)
    ensures Levenshtein(a, b) == 0 <==> a == b
    decreases |a| + |b|
  {
    if |a| > 0 && |b| > 0 {
      LevenshteinZero(a[1..], b[1..]);
      assert a == [a[0]] + a[1..] && b == [b[0]] + b[1..];
    }
  }

  /** The distance is at least the difference in length and at most the longer length. */
  lemma {:induction false} LevenshteinBounds(a: string, b: string)
    ensures Diff(|a|, |b|) <= Levenshtein(a, b) <= Max(|a|, |b|)
    decreases |a| + |b|
  {
    if |a| > 0 && |b| > 0 {
      LevenshteinBounds(a[1..], b[1..]);
      LevenshteinBounds(a[1..], b);
      LevenshteinBounds(a, b[1..]);
    }
  }

  /** It does not matter which string is the query. */
  lemma {:induction false} LevenshteinSymmetric(a: string, b: string)
    ensures Levenshtein(a, b) == Levenshtein(b, a)
    decreases |a| + |b|
  {
    if |a| > 0 && |b| > 0 {
      LevenshteinSymmetric(a[1..], b[1..]);
      LevenshteinSymmetric(a[1..], b);
      LevenshteinSymmetric(a, b[1..]);
    }
  }

  /** One character more at the front costs at most one. */
  lemma LevenshteinCons(c: char, a: string)
    ensures Levenshtein([c] + a, a) == 1
  {
    var s := [c] + a;
    assert s[1..] == a;
    LevenshteinZero(a, a);
    LevenshteinBounds(s, a);
  }
}
