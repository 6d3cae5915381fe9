/** Facts about sequences that several models share. */
module Sequences {
  lemma PlusAssociates<T>(a: seq<T>, b: seq<T>, c: seq<T>)
    ensures a + b + c == a + (b + c)
  {
  }

  lemma RemoveOne<T>(s: seq<T>, k: nat)
    requires k < |s|
    ensures multiset(s) == multiset{s[k]} + multiset(s[..k] + s[k + 1..])
  {
    assert s == s[..k] + [s[k]] + s[k + 1..];
  }

  /** What stands before and after the last separator of a text. */
  lemma LastSeparator<T>(s: seq<T>, front: seq<T>, sep: T, last: seq<T>)
    requires s == front + [sep] + last && sep !in last
    ensures |front| < |s| && s[|front|] == sep && s[..|front|] == front && s[|front| + 1..] == last
    ensures forall i :: |front| < i < |s| ==> s[i] != sep
  {
    assert s[|front| + 1..] == last;
    assert forall i :: |front| < i < |s| ==> s[i] == s[|front| + 1..][i - (|front| + 1)];
  }
}
