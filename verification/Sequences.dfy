/** Facts about cutting and joining sequences. */
module Sequences {

  lemma TakeAll<T>(s: seq<T>)
    ensures s[..0] == [] && s[..|s|] == s
  {
  }

  lemma TakeTwice<T>(s: seq<T>, i: nat, n: nat)
    requires i <= n <= |s|
    ensures s[..n][..i] == s[..i]
  {
  }

  /** What a loop over `s` has seen after turn `i`. */
  lemma Prefix<T>(s: seq<T>, i: nat)
    requires i < |s|
    ensures s[..i + 1] == s[..i] + [s[i]]
  {
  }

  lemma Ends<T>(s: seq<T>)
    requires s != []
    ensures s[..|s| - 1] + [s[|s| - 1]] == s
  {
  }

  lemma Around<T>(s: seq<T>, k: nat)
    requires k < |s|
    ensures s[..k] + [s[k]] + s[k + 1..] == s
  {
  }

  lemma AppendNothing<T>(s: seq<T>, t: seq<T>)
    requires t == []
    ensures s + t == s && t + s == s
  {
  }

  lemma AppendTwo<T>(x: seq<T>, a: seq<T>, b: seq<T>)
    ensures x + a + b == x + (a + b)
  {
  }

  lemma AppendThree<T>(x: seq<T>, a: seq<T>, b: seq<T>, c: seq<T>)
    ensures x + a + b + c == x + (a + b + c)
  {
  }

  lemma AppendFour<T>(x: seq<T>, a: seq<T>, b: seq<T>, c: seq<T>, d: seq<T>)
    ensures x + a + b + c + d == x + (a + b + c + d)
  {
  }

  /** Two appends in a row are one. */
  lemma Chain<T>(x: seq<T>, a: seq<T>, y: seq<T>, b: seq<T>, z: seq<T>)
    requires x + a == y && y + b == z
    ensures x + (a + b) == z
  {
  }
}
