/** Small shared vocabulary: optional values, files as the browser and the
    server see them, and the one-line notices the pages raise. */
module Common {

  datatype Option<T> = None | Some(value: T)

  /** A file chosen in the browser or received by the server: its name, its
      MIME type and its size in bytes. Contents are not modelled. */
  datatype File = File(name: string, mimeType: string, size: nat)

  /** The transient notification a handler raises, if any. */
  datatype Notice = Quiet | SuccessNotice(message: string) | ErrorNotice(message: string)

  /** The elements of `s` that satisfy `p`, in order (JavaScript's `filter`
      and Python's list comprehension with a condition). */
  function Filter<T>(s: seq<T>, p: T -> bool): (r: seq<T>)
    ensures |r| <= |s|
    ensures forall i :: 0 <= i < |r| ==> r[i] in s && p(r[i])
    ensures forall i :: 0 <= i < |s| && p(s[i]) ==> s[i] in r
  {
    if s == [] then [] else (if p(s[0]) then [s[0]] else []) + Filter(s[1..], p)
  }

  lemma {:induction false} FilterAppend<T>(a: seq<T>, b: seq<T>, p: T -> bool)
    ensures Filter(a + b, p) == Filter(a, p) + Filter(b, p)
  {
    if a != [] {
      assert (a + b)[1..] == a[1..] + b;
      FilterAppend(a[1..], b, p);
    } else {
      assert a + b == b;
    }
  }

  /** Filtering with a predicate that holds everywhere in `s` changes nothing. */
  lemma {:induction false} FilterAll<T>(s: seq<T>, p: T -> bool)
    requires forall i :: 0 <= i < |s| ==> p(s[i])
    ensures Filter(s, p) == s
  {
    if s != [] {
      FilterAll(s[1..], p);
    }
  }

  /** A predicate and its negation split a sequence: the two filters' lengths add up. */
  lemma {:induction false} FilterComplement<T>(s: seq<T>, p: T -> bool, q: T -> bool)
    requires forall x :: q(x) == !p(x)
    ensures |Filter(s, p)| + |Filter(s, q)| == |s|
  {
    if s != [] {
      FilterComplement(s[1..], p, q);
    }
  }

  /** Filtering out an element that occurs makes the list strictly shorter. */
  lemma {:induction false} FilterShorter<T>(s: seq<T>, p: T -> bool)
    requires exists i :: 0 <= i < |s| && !p(s[i])
    ensures |Filter(s, p)| < |s|
  {
    var i :| 0 <= i < |s| && !p(s[i]);
    if i == 0 {
      assert |Filter(s[1..], p)| <= |s[1..]|;
    } else {
      assert s[1..][i - 1] == s[i];
      FilterShorter(s[1..], p);
    }
  }

  /** Regrouping a concatenation; stated once so that loops that append to an
      accumulator can name the step. */
  lemma AppendAssoc<T>(a: seq<T>, b: seq<T>, c: seq<T>)
    ensures a + (b + c) == (a + b) + c
  {
  }

  /** Every element occurs at most once. */
  predicate NoDuplicates<T(==)>(s: seq<T>) {
    forall i, j :: 0 <= i < j < |s| ==> s[i] != s[j]
  }

  /** The same value through JavaScript's `map`. */
  function Map<T, U>(s: seq<T>, f: T -> U): (r: seq<U>)
    ensures |r| == |s|
    ensures forall i :: 0 <= i < |s| ==> r[i] == f(s[i])
  {
    seq(|s|, i requires 0 <= i < |s| => f(s[i]))
  }
}
