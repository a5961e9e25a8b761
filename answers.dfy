/**
 * The `respuestas` dictionary of app.py: an insertion-ordered map from school to
 * answer, as a Python `dict` behaves. Assigning to a key that is already present
 * replaces its value and keeps its position; a new key goes to the end.
 */
module Answers {
  import opened Wrappers

  datatype Entry = Entry(school: string, answer: string)

  /** The keys in iteration order (`respuestas.keys()`). */
  function Keys(m: seq<Entry>): seq<string>
  {
    seq(|m|, i requires 0 <= i < |m| => m[i].school)
  }

  predicate Distinct(xs: seq<string>)
  {
    forall i, j :: 0 <= i < j < |xs| ==> xs[i] != xs[j]
  }

  /** `respuestas.get(school)`. */
  function Lookup(m: seq<Entry>, school: string): (r: Option<string>)
    ensures r.None? <==> school !in Keys(m)
  {
    if m == [] then None
    else
      assert Keys(m) == [m[0].school] + Keys(m[1..]);
      if m[0].school == school then Some(m[0].answer)
      else Lookup(m[1..], school)
  }

  /** `respuestas[school] = answer`. */
  function Put(m: seq<Entry>, school: string, answer: string): seq<Entry>
  {
    if m == [] then [Entry(school, answer)]
    else if m[0].school == school then [Entry(school, answer)] + m[1..]
    else [m[0]] + Put(m[1..], school, answer)
  }

  /** Assignment as a Python dict does it: a known key keeps its place and a new key goes last. */
  lemma {:induction false} PutKeys(m: seq<Entry>, school: string, answer: string)
    ensures Keys(Put(m, school, answer)) == (if school in Keys(m) then Keys(m) else Keys(m) + [school])
  {
    if m != [] {
      var r := Put(m, school, answer);
      assert Keys(m) == [m[0].school] + Keys(m[1..]);
      assert Keys(r) == [r[0].school] + Keys(r[1..]);
      if m[0].school != school {
        PutKeys(m[1..], school, answer);
        assert r[1..] == Put(m[1..], school, answer);
      }
    }
  }

  /** After assignment the school maps to the answer and every other school keeps its value. */
  lemma {:induction false} PutLookup(m: seq<Entry>, school: string, answer: string)
    ensures Lookup(Put(m, school, answer), school) == Some(answer)
    ensures forall other :: other != school ==> Lookup(Put(m, school, answer), other) == Lookup(m, other)
  {
    if m != [] && m[0].school != school {
      PutLookup(m[1..], school, answer);
    }
  }

  /** Assignment never makes a key appear twice. */
  lemma PutKeepsDistinct(m: seq<Entry>, school: string, answer: string)
    requires Distinct(Keys(m))
    ensures Distinct(Keys(Put(m, school, answer)))
  {
    PutKeys(m, school, answer);
  }

  /** The first occurrences of `xs`, in order: the keys a dict ends with after assigning to each of `xs` in turn. */
  function Dedup(xs: seq<string>): (r: seq<string>)
    ensures Distinct(r)
    ensures forall x :: x in r <==> x in xs
  {
    if xs == [] then []
    else
      var d := Dedup(xs[..|xs| - 1]);
      var last := xs[|xs| - 1];
      assert xs == xs[..|xs| - 1] + [last];
      if last in d then d else d + [last]
  }

  /** The position of the first occurrence of `x` in `xs` (`xs.index(x)`). */
  function FirstIndex(xs: seq<string>, x: string): (r: nat)
    requires x in xs
    ensures r < |xs| && xs[r] == x && x !in xs[..r]
  {
    if xs[0] == x then 0
    else
      assert xs[1..][..FirstIndex(xs[1..], x)] == xs[..FirstIndex(xs[1..], x) + 1][1..];
      1 + FirstIndex(xs[1..], x)
  }

  /** An index holding `x` with no `x` before it is the first occurrence. */
  lemma FirstIndexIs(xs: seq<string>, x: string, i: nat)
    requires i < |xs| && xs[i] == x && x !in xs[..i]
    ensures FirstIndex(xs, x) == i
  {
  }

  /** `Dedup` keeps the schools in the order of their first occurrence in the selection. */
  lemma DedupFirstOccurrenceOrder(xs: seq<string>)
    ensures var r := Dedup(xs);
      forall k :: 0 <= k < |r| - 1 ==> FirstIndex(xs, r[k]) < FirstIndex(xs, r[k + 1])
  {
    forall k | 0 <= k < |Dedup(xs)| - 1 {
      DedupOrderAt(xs, k);
    }
  }

  /** The order of first occurrences at one position `k` of `Dedup(xs)`. */
  lemma {:induction false} DedupOrderAt(xs: seq<string>, k: nat)
    requires k + 1 < |Dedup(xs)|
    ensures FirstIndex(xs, Dedup(xs)[k]) < FirstIndex(xs, Dedup(xs)[k + 1])
  {
    var n := |xs| - 1;
    var init := xs[..n];
    var d := Dedup(init);
    var r := Dedup(xs);
    assert xs == init + [xs[n]];
    assert r[k] == d[k] && d[k] in init;
    var i := FirstIndex(init, d[k]);
    assert xs[..i] == init[..i];
    FirstIndexIs(xs, d[k], i);
    if k + 1 < |d| {
      assert r[k + 1] == d[k + 1] && d[k + 1] in init;
      var j := FirstIndex(init, d[k + 1]);
      assert xs[..j] == init[..j];
      FirstIndexIs(xs, d[k + 1], j);
      DedupOrderAt(init, k);
    } else {
      assert r[k + 1] == xs[n] && xs[..n] == init;
      FirstIndexIs(xs, xs[n], n);
    }
  }

  /** Without repetitions there is nothing to remove. */
  lemma {:induction false} DedupDistinct(xs: seq<string>)
    requires Distinct(xs)
    ensures Dedup(xs) == xs
  {
    if xs != [] {
      var init := xs[..|xs| - 1];
      DedupDistinct(init);
      assert xs[|xs| - 1] !in init;
      assert xs == init + [xs[|xs| - 1]];
    }
  }
}
