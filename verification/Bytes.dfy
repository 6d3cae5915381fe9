/** Byte strings and first-occurrence searches, as Rust's `str::find` performs them. */
module ByteStrings {
  import opened Options
  import opened Sequences

  newtype Byte = b: int | 0 <= b < 256

  type Bytes = seq<Byte>

  /** The bytes of an ASCII text. */
  function Ascii(text: string): (r: Bytes)
    requires forall i :: 0 <= i < |text| ==> text[i] < 128 as char
    ensures |r| == |text| && forall i :: 0 <= i < |r| ==> r[i] as int == text[i] as int
  {
    seq(|text|, i requires 0 <= i < |text| => (text[i] as int) as Byte)
  }

  /** The index of the first `b` in `s`. */
  function IndexOf(s: Bytes, b: Byte): (r: Option<nat>)
    ensures r.Some? ==> r.value < |s| && s[r.value] == b && b !in s[..r.value]
    ensures r.None? <==> b !in s
  {
    if s == [] then None
    else if s[0] == b then Some(0)
    else match IndexOf(s[1..], b)
      case None => None
      case Some(i) => Some(i + 1)
  }

  /** `pat` stands in `s` at index `i`. */
  predicate OccursAt(s: Bytes, pat: Bytes, i: nat) {
    i + |pat| <= |s| && s[i..i + |pat|] == pat
  }

  predicate Contains(s: Bytes, pat: Bytes) {
    exists i :: 0 <= i <= |s| && OccursAt(s, pat, i)
  }

  /** The index of the first occurrence of `pat` in `s` at or after `from`. */
  function FindFrom(s: Bytes, pat: Bytes, from: nat): (r: Option<nat>)
    requires from <= |s|
    ensures r.Some? ==> from <= r.value && OccursAt(s, pat, r.value)
    ensures r.Some? ==> forall i :: from <= i < r.value ==> !OccursAt(s, pat, i)
    ensures r.None? ==> forall i :: from <= i <= |s| ==> !OccursAt(s, pat, i)
    decreases |s| - from
  {
    if OccursAt(s, pat, from) then Some(from)
    else if from == |s| then None
    else FindFrom(s, pat, from + 1)
  }

  function Find(s: Bytes, pat: Bytes): (r: Option<nat>)
    ensures r.Some? ==> OccursAt(s, pat, r.value) && forall i :: 0 <= i < r.value ==> !OccursAt(s, pat, i)
    ensures r.Some? <==> Contains(s, pat)
  {
    FindFrom(s, pat, 0)
  }

  /** The first occurrence is determined by what it is. */
  lemma FindIs(s: Bytes, pat: Bytes, i: nat)
    requires OccursAt(s, pat, i) && forall j :: 0 <= j < i ==> !OccursAt(s, pat, j)
    ensures Find(s, pat) == Some(i)
  {
  }

  lemma SliceOfPrefix(s: Bytes, t: Bytes, n: nat, j: nat, k: nat)
    requires n <= |s| && n <= |t| && s[..n] == t[..n] && j <= k <= n
    ensures s[j..k] == t[j..k]
  {
    assert s[j..k] == s[..n][j..k];
    assert t[j..k] == t[..n][j..k];
  }

  /** A first occurrence does not depend on what follows it. */
  lemma FindPrefix(s: Bytes, t: Bytes, pat: Bytes, i: nat)
    requires Find(s, pat) == Some(i) && i + |pat| <= |t| && t[..i + |pat|] == s[..i + |pat|]
    ensures Find(t, pat) == Some(i)
  {
    forall j | 0 <= j <= i
      ensures OccursAt(t, pat, j) <==> OccursAt(s, pat, j)
    {
      SliceOfPrefix(s, t, i + |pat|, j, j + |pat|);
    }
    FindIs(t, pat, i);
  }

  lemma IndexOfIs(s: Bytes, b: Byte, i: nat)
    requires i < |s| && s[i] == b && b !in s[..i]
    ensures IndexOf(s, b) == Some(i)
  {
    var r := IndexOf(s, b).value;
    assert forall j :: 0 <= j < i ==> s[..i][j] == s[j];
    assert forall j :: 0 <= j < r ==> s[..r][j] == s[j];
  }

  lemma OccursInFront(a: Bytes, b: Bytes, pat: Bytes, i: nat)
    requires i + |pat| <= |a|
    ensures OccursAt(a + b, pat, i) <==> OccursAt(a, pat, i)
  {
    assert (a + b)[i..i + |pat|] == a[i..i + |pat|];
  }

  lemma OccursInBack(a: Bytes, b: Bytes, pat: Bytes, j: nat)
    ensures OccursAt(a + b, pat, |a| + j) <==> OccursAt(b, pat, j)
  {
    if j + |pat| <= |b| {
      assert (a + b)[|a| + j..|a| + j + |pat|] == b[j..j + |pat|];
    }
  }

  /** An occurrence does not straddle a byte the pattern lacks. */
  lemma ContainsSplit(a: Bytes, sep: Byte, b: Bytes, pat: Bytes)
    requires sep !in pat && pat != []
    ensures Contains(a + [sep] + b, pat) <==> Contains(a, pat) || Contains(b, pat)
  {
    var s := a + [sep] + b;
    PlusAssociates(a, [sep], b);
    if Contains(a, pat) {
      var i :| 0 <= i <= |a| && OccursAt(a, pat, i);
      OccursInFront(a, [sep] + b, pat, i);
    }
    if Contains(b, pat) {
      var i :| 0 <= i <= |b| && OccursAt(b, pat, i);
      OccursInBack(a + [sep], b, pat, i);
    }
    if Contains(s, pat) {
      var i :| 0 <= i <= |s| && OccursAt(s, pat, i);
      NoStraddle(s, |a|, pat, i);
      if i + |pat| <= |a| {
        OccursInFront(a, [sep] + b, pat, i);
      } else {
        OccursInBack(a + [sep], b, pat, i - |a| - 1);
      }
    }
  }

  lemma NoStraddle(s: Bytes, k: nat, pat: Bytes, i: nat)
    requires k < |s| && s[k] !in pat && OccursAt(s, pat, i)
    ensures i + |pat| <= k || k < i
  {
    if i <= k < i + |pat| {
      SliceAt(s, pat, i, k - i);
    }
  }

  lemma SliceAt(s: Bytes, pat: Bytes, i: nat, j: nat)
    requires OccursAt(s, pat, i) && j < |pat|
    ensures s[i + j] in pat
  {
    assert s[i..i + |pat|][j] == s[i + j];
  }

  lemma Cut(a: Bytes, b: Bytes)
    ensures (a + b)[..|a|] == a && (a + b)[|a|..] == b
  {
  }

  lemma Glue(s: Bytes, i: nat)
    requires i <= |s|
    ensures s == s[..i] + s[i..]
  {
  }

  lemma GlueAround(s: Bytes, i: nat)
    requires i < |s|
    ensures s == s[..i] + [s[i]] + s[i + 1..]
  {
  }
}
