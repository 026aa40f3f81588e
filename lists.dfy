/**
 * The parts of `System.Collections.Generic.List<T>` and LINQ that the topology cache and the
 * response helpers rely on: `FindIndex`/`Find` (the first match) and `FindAll`/`Where`
 * (every match, in order, duplicates kept).
 */
module Lists {
  import opened Wrappers

  /** The position of the first element of `s` that satisfies `p`, if any. */
  function FindIndex<T>(s: seq<T>, p: T -> bool): (r: Option<nat>)
    ensures r.Some? ==> r.value < |s| && p(s[r.value])
    ensures r.Some? ==> forall j :: 0 <= j < r.value ==> !p(s[j])
    ensures r.None? <==> forall i :: 0 <= i < |s| ==> !p(s[i])
  {
    if s == [] then None
    else if p(s[0]) then Some(0)
    else match FindIndex(s[1..], p)
      case None => None
      case Some(k) => Some(k + 1)
  }

  /** Every element of `s` that satisfies `p`, in the order of `s`, duplicates kept. */
  function FindAll<T>(s: seq<T>, p: T -> bool): (r: seq<T>)
    ensures |r| <= |s|
    ensures forall i :: 0 <= i < |r| ==> r[i] in s && p(r[i])
    ensures forall i :: 0 <= i < |s| && p(s[i]) ==> s[i] in r
  {
    if s == [] then []
    else (if p(s[0]) then [s[0]] else []) + FindAll(s[1..], p)
  }

  /** Two distinct positions of `s` both satisfy `p`. */
  predicate HasTwo<T>(s: seq<T>, p: T -> bool)
  {
    exists i, j :: 0 <= i < j < |s| && p(s[i]) && p(s[j])
  }

  /** The head of `FindAll` is the element `FindIndex` points at; both are empty together. */
  lemma {:induction false} FindAllHead<T>(s: seq<T>, p: T -> bool)
    ensures FindAll(s, p) == [] <==> FindIndex(s, p).None?
    ensures FindAll(s, p) != [] ==> FindAll(s, p)[0] == s[FindIndex(s, p).value]
  {
    if s != [] && !p(s[0]) {
      FindAllHead(s[1..], p);
    }
  }

  /** Filtering distributes over concatenation, so `FindAll` keeps the order of its input. */
  lemma {:induction false} FindAllConcat<T>(a: seq<T>, b: seq<T>, p: T -> bool)
    ensures FindAll(a + b, p) == FindAll(a, p) + FindAll(b, p)
  {
    if a != [] {
      assert (a + b)[1..] == a[1..] + b;
      FindAllConcat(a[1..], b, p);
    } else {
      assert a + b == b;
    }
  }

  /** A filter keeps every element of a sequence all of whose elements pass it. */
  lemma {:induction false} FindAllKeepsAll<T>(s: seq<T>, p: T -> bool)
    requires forall i :: 0 <= i < |s| ==> p(s[i])
    ensures FindAll(s, p) == s
  {
    if s != [] {
      FindAllKeepsAll(s[1..], p);
    }
  }

  /** With its head dropped, `s` has two matches exactly when `s` has them past the head. */
  lemma HasTwoTail<T>(s: seq<T>, p: T -> bool)
    requires s != [] && !p(s[0])
    ensures HasTwo(s, p) <==> HasTwo(s[1..], p)
  {
    var rest := s[1..];
    if HasTwo(rest, p) {
      var i, j :| 0 <= i < j < |rest| && p(rest[i]) && p(rest[j]);
      assert p(s[i + 1]) && p(s[j + 1]);
    }
    if HasTwo(s, p) {
      var i, j :| 0 <= i < j < |s| && p(s[i]) && p(s[j]);
      assert p(rest[i - 1]) && p(rest[j - 1]);
    }
  }

  /** When the head of `s` matches, a second match is any match past the head. */
  lemma HasTwoHead<T>(s: seq<T>, p: T -> bool)
    requires s != [] && p(s[0])
    ensures HasTwo(s, p) <==> exists k :: 0 <= k < |s[1..]| && p(s[1..][k])
  {
    var rest := s[1..];
    if HasTwo(s, p) {
      var i, j :| 0 <= i < j < |s| && p(s[i]) && p(s[j]);
      assert p(rest[j - 1]);
    }
    if exists k :: 0 <= k < |rest| && p(rest[k]) {
      var k :| 0 <= k < |rest| && p(rest[k]);
      assert p(s[0]) && p(s[k + 1]);
    }
  }

  /** `FindAll` returns two or more elements exactly when two positions of `s` satisfy `p`. */
  lemma {:induction false} FindAllHasTwo<T>(s: seq<T>, p: T -> bool)
    ensures |FindAll(s, p)| >= 2 <==> HasTwo(s, p)
  {
    if s != [] {
      var rest := s[1..];
      if p(s[0]) {
        HasTwoHead(s, p);
        FindAllHead(rest, p);
      } else {
        HasTwoTail(s, p);
        FindAllHasTwo(rest, p);
      }
    }
  }

  /** Without two matching positions, any two matching elements of `s` are the same element. */
  lemma SingleMatch<T>(s: seq<T>, p: T -> bool, x: T, y: T)
    requires x in s && y in s && p(x) && p(y)
    requires !HasTwo(s, p)
    ensures x == y
  {
    var i :| 0 <= i < |s| && s[i] == x;
    var j :| 0 <= j < |s| && s[j] == y;
    if i < j {
      assert p(s[i]) && p(s[j]);
    } else if j < i {
      assert p(s[j]) && p(s[i]);
    }
  }
}
