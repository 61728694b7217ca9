/** The handful of PHP value semantics that the theme updater relies on. */
module Php {

  /** PHP's `empty()` on a string (or on a missing value read as ""): true for "" and "0". */
  predicate Empty(s: string) {
    s == "" || s == "0"
  }

  /** The keys of an ordered PHP array are pairwise distinct. */
  predicate DistinctKeys<V>(a: seq<(string, V)>) {
    forall i, j :: 0 <= i < j < |a| ==> a[i].0 != a[j].0
  }

  /** An ordered PHP array with string keys, listed in iteration order. */
  type PhpArray<V> = a: seq<(string, V)> | DistinctKeys(a) witness []

  /** PHP's `array_keys`: the keys of an array, in iteration order. */
  function ArrayKeys<V>(a: seq<(string, V)>): seq<string> {
    seq(|a|, i requires 0 <= i < |a| => a[i].0)
  }

  /** Two maps agree at key k: both lack it, or both hold the same value there. */
  predicate SameAt<K, V(==)>(m: map<K, V>, m': map<K, V>, k: K) {
    (k in m <==> k in m') && (k in m ==> m[k] == m'[k])
  }

  /** PHP's `implode(sep, parts)`: the parts, with sep between each two neighbours. */
  function Implode(sep: string, parts: seq<string>): string
    decreases |parts|
  {
    if |parts| == 0 then ""
    else if |parts| == 1 then parts[0]
    else parts[0] + sep + Implode(sep, parts[1..])
  }

  /** The first position of c in s. */
  function IndexOf(c: char, s: string): (i: nat)
    requires c in s
    ensures i < |s| && s[i] == c
    ensures c !in s[..i]
  {
    if s[0] == c then 0
    else
      assert c in s[1..] by { assert s == [s[0]] + s[1..]; }
      var j := IndexOf(c, s[1..]);
      assert s[..1 + j] == [s[0]] + s[1..][..j];
      1 + j
  }

  /** PHP's `explode` with a one-character delimiter: the pieces of s between the occurrences of c. */
  function Explode(c: char, s: string): (parts: seq<string>)
    ensures |parts| >= 1
    decreases |s|
  {
    if c in s then
      var i := IndexOf(c, s);
      [s[..i]] + Explode(c, s[i + 1..])
    else
      [s]
  }

  /** In p + [c] + t with c not in p, the first c is the one right after p. */
  lemma {:induction false} IndexOfAfterPrefix(c: char, p: string, t: string)
    requires c !in p
    ensures c in p + [c] + t
    ensures IndexOf(c, p + [c] + t) == |p|
  {
    var s := p + [c] + t;
    assert s[|p|] == c;
    if p != [] {
      assert s[0] == p[0] && p[0] != c;
      assert s[1..] == p[1..] + [c] + t;
      IndexOfAfterPrefix(c, p[1..], t);
    }
  }

  /** Splitting p + [c] + t at c, with c not in p, gives p followed by the pieces of t. */
  lemma ExplodeAfterPrefix(c: char, p: string, t: string)
    requires c !in p
    ensures Explode(c, p + [c] + t) == [p] + Explode(c, t)
  {
    var s := p + [c] + t;
    IndexOfAfterPrefix(c, p, t);
    assert s[..|p|] == p;
    assert s[|p| + 1..] == t;
  }

  /**
   * Joining pieces with a one-character separator loses nothing when no piece contains it:
   * splitting the joined string at that character gives the pieces back.
   */
  lemma {:induction false} ExplodeImplode(c: char, parts: seq<string>)
    requires |parts| >= 1
    requires forall k :: 0 <= k < |parts| ==> c !in parts[k]
    ensures Explode(c, Implode([c], parts)) == parts
  {
    if |parts| > 1 {
      var s := Implode([c], parts);
      assert s == parts[0] + [c] + Implode([c], parts[1..]);
      ExplodeAfterPrefix(c, parts[0], Implode([c], parts[1..]));
      ExplodeImplode(c, parts[1..]);
      assert parts == [parts[0]] + parts[1..];
    }
  }
}
