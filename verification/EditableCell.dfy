/**
 The draft of an edited scalar cell and what saving it parses (src/components/EditableCell.tsx).
 Numbers are exact; `show` is JavaScript's text for a number that is not an integer.
 */
module EditableCell {
  import opened Decimals
  import opened Sequences

  datatype Value = Null | Undefined | Bool(b: bool) | Num(n: real) | Str(s: string)

  const MAX_SAFE := 0x1F_FFFF_FFFF_FFFF

  function PrintInt(n: int): string {
    if n < 0 then "-" + Print(-n) else Print(n)
  }

  predicate IsInteger(x: real) {
    x.Floor as real == x
  }

  function DefaultDraft(value: Value, show: real -> string): string {
    match value
    case Null => "null"
    case Undefined => "null"
    case Str(s) => s
    case Bool(b) => if b then "true" else "false"
    case Num(n) => if IsInteger(n) then PrintInt(n.Floor) else show(n)
  }

  // ----- trim -----

  predicate IsSpace(c: char) {
    var n := c as int;
    || 9 <= n <= 13 || n == 32 || n == 0xA0 || n == 0x1680 || 0x2000 <= n <= 0x200A
    || n == 0x2028 || n == 0x2029 || n == 0x202F || n == 0x205F || n == 0x3000 || n == 0xFEFF
  }

  function TrimStart(s: string): string {
    if s != "" && IsSpace(s[0]) then TrimStart(s[1..]) else s
  }

  function TrimEnd(s: string): string {
    if s != "" && IsSpace(s[|s| - 1]) then TrimEnd(s[..|s| - 1]) else s
  }

  function Trim(s: string): string {
    TrimEnd(TrimStart(s))
  }

  /** JavaScript's white space and line ends. */
  lemma SpaceMeaning(c: char)
    ensures IsSpace(c) <==>
      || c in "\t\n\U{0B}\U{0C}\r \U{A0}\U{1680}\U{2028}\U{2029}\U{202F}\U{205F}\U{3000}\U{FEFF}"
      || c in "\U{2000}\U{2001}\U{2002}\U{2003}\U{2004}\U{2005}\U{2006}\U{2007}\U{2008}\U{2009}\U{200A}"
  {
  }

  predicate AllSpace(s: string) {
    forall i :: 0 <= i < |s| ==> IsSpace(s[i])
  }

  lemma {:induction false} TrimStartMeans(s: string) returns (front: string)
    ensures AllSpace(front) && s == front + TrimStart(s)
    ensures TrimStart(s) == "" || !IsSpace(TrimStart(s)[0])
    decreases |s|
  {
    front := "";
    if s != "" && IsSpace(s[0]) {
      var rest := TrimStartMeans(s[1..]);
      front := [s[0]] + rest;
      assert s == [s[0]] + s[1..];
    }
  }

  lemma {:induction false} TrimEndMeans(s: string) returns (back: string)
    ensures AllSpace(back) && s == TrimEnd(s) + back
    ensures TrimEnd(s) == "" || (TrimEnd(s)[0] == s[0] && !IsSpace(TrimEnd(s)[|TrimEnd(s)| - 1]))
    decreases |s|
  {
    back := "";
    if s != "" && IsSpace(s[|s| - 1]) {
      var rest := TrimEndMeans(s[..|s| - 1]);
      back := rest + [s[|s| - 1]];
      assert s == s[..|s| - 1] + [s[|s| - 1]];
    }
  }

  /** Trimming takes white space off both ends, and leaves none there. */
  lemma TrimMeans(s: string) returns (front: string, back: string)
    ensures AllSpace(front) && AllSpace(back) && s == front + Trim(s) + back
    ensures Trim(s) == "" || (!IsSpace(Trim(s)[0]) && !IsSpace(Trim(s)[|Trim(s)| - 1]))
  {
    front := TrimStartMeans(s);
    back := TrimEndMeans(TrimStart(s));
    PlusAssociates(front, Trim(s), back);
  }

  // ----- /^-?\d+(\.\d+)?$/ -----

  /** The longest prefix of digits. */
  function DigitPrefix(s: string): (n: nat)
    ensures n <= |s| && AllDigits(s[..n])
    ensures n < |s| ==> !IsDigit(s[n])
  {
    if s != "" && IsDigit(s[0]) then
      var n := DigitPrefix(s[1..]);
      assert forall i :: 0 < i < n + 1 ==> s[i] == s[1..][..n][i - 1];
      n + 1
    else 0
  }

  /** A number text: sign, integer digits and fraction digits. */
  datatype Numeral = Numeral(negative: bool, whole: string, fraction: string)

  predicate Proper(m: Numeral) {
    m.whole != "" && AllDigits(m.whole) && AllDigits(m.fraction)
  }

  function Text(m: Numeral): string {
    (if m.negative then "-" else "") + m.whole + (if m.fraction == "" then "" else "." + m.fraction)
  }

  predicate Unsigned(t: string) {
    var n := DigitPrefix(t);
    n > 0 && (n == |t| || (t[n] == '.' && n + 1 < |t| && AllDigits(t[n + 1..])))
  }

  predicate MatchesNumber(s: string) {
    Unsigned(if s != "" && s[0] == '-' then s[1..] else s)
  }

  /** What the matcher accepts, taken apart. */
  function Parts(s: string): Numeral
    requires MatchesNumber(s)
  {
    var negative := s[0] == '-';
    var t := if negative then s[1..] else s;
    var n := DigitPrefix(t);
    Numeral(negative, t[..n], if n == |t| then "" else t[n + 1..])
  }

  lemma PrefixIs(t: string, n: nat)
    requires n <= |t| && AllDigits(t[..n]) && (n < |t| ==> !IsDigit(t[n]))
    ensures DigitPrefix(t) == n
  {
    var k := DigitPrefix(t);
    assert forall i :: 0 <= i < n ==> t[i] == t[..n][i];
    assert forall i :: 0 <= i < k ==> t[i] == t[..k][i];
  }

  lemma UnsignedText(whole: string, fraction: string)
    requires whole != "" && AllDigits(whole) && AllDigits(fraction)
    ensures var t := whole + (if fraction == "" then "" else "." + fraction);
      Unsigned(t) && DigitPrefix(t) == |whole| && t[..|whole|] == whole
      && (fraction == "" <==> |t| == |whole|) && (fraction != "" ==> t[|whole| + 1..] == fraction)
  {
    var t := whole + (if fraction == "" then "" else "." + fraction);
    assert t[..|whole|] == whole;
    PrefixIs(t, |whole|);
    if fraction != "" {
      assert t[|whole| + 1..] == fraction;
    }
  }

  lemma SplitAt(t: string, n: nat)
    requires n < |t|
    ensures t == t[..n] + ([t[n]] + t[n + 1..])
  {
  }

  lemma UnsignedParts(t: string, n: nat)
    requires Unsigned(t) && n == DigitPrefix(t)
    ensures t[..n] != "" && AllDigits(t[..n])
    ensures n < |t| ==> t[n + 1..] != "" && AllDigits(t[n + 1..])
    ensures t == t[..n] + if n == |t| then "" else "." + t[n + 1..]
  {
    if n < |t| {
      SplitAt(t, n);
    }
  }

  lemma MatchedParts(s: string)
    requires MatchesNumber(s)
    ensures Proper(Parts(s)) && Text(Parts(s)) == s
  {
    var t := if s[0] == '-' then s[1..] else s;
    var n := DigitPrefix(t);
    UnsignedParts(t, n);
    var m := Parts(s);
    assert m.whole == t[..n];
    assert m.fraction == if n == |t| then "" else t[n + 1..];
    var sign := if m.negative then "-" else "";
    assert s == sign + t;
    PlusAssociates(sign, m.whole, if m.fraction == "" then "" else "." + m.fraction);
  }

  /** The matcher accepts exactly the texts of proper numerals, each of one numeral only. */
  lemma MatchesIff(s: string)
    ensures MatchesNumber(s) <==> exists m :: Proper(m) && Text(m) == s
    ensures MatchesNumber(s) ==> Proper(Parts(s)) && Text(Parts(s)) == s
    ensures forall m :: Proper(m) && Text(m) == s ==> m == Parts(s)
  {
    if MatchesNumber(s) {
      MatchedParts(s);
    }
    forall m | Proper(m) && Text(m) == s
      ensures MatchesNumber(s) && m == Parts(s)
    {
      TextMatches(m);
    }
  }

  lemma TextMatches(m: Numeral)
    requires Proper(m)
    ensures MatchesNumber(Text(m)) && Parts(Text(m)) == m
  {
    var tail := if m.fraction == "" then "" else "." + m.fraction;
    var t := m.whole + tail;
    UnsignedText(m.whole, m.fraction);
    if m.negative {
      PlusAssociates("-", m.whole, tail);
      assert Text(m) == "-" + t;
      assert Text(m)[1..] == t;
    } else {
      assert Text(m) == t by { PlusAssociates("", m.whole, tail); }
      assert IsDigit(t[0]) by { assert t[0] == m.whole[0]; }
    }
  }

  function Pow10(k: nat): (p: int)
    ensures p >= 1
  {
    if k == 0 then 1 else 10 * Pow10(k - 1)
  }

  /** `Number(text)` for a matched text. */
  function ValueOf(m: Numeral): real
    requires Proper(m)
  {
    var magnitude := Read(m.whole) as real + Read(m.fraction) as real / Pow10(|m.fraction|) as real;
    if m.negative then -magnitude else magnitude
  }

  lemma ReadSnoc(s: string, c: char)
    requires AllDigits(s) && IsDigit(c)
    ensures AllDigits(s + [c]) && Read(s + [c]) == 10 * Read(s) + DigitValue(c)
  {
    assert (s + [c])[..|s|] == s;
  }

  lemma Shift(x: nat, p: nat, y: nat, d: nat)
    ensures 10 * (x * p + y) + d == x * (10 * p) + (10 * y + d)
  {
  }

  lemma {:induction false} ReadAppend(a: string, b: string)
    requires AllDigits(a) && AllDigits(b)
    ensures AllDigits(a + b) && Read(a + b) == Read(a) * Pow10(|b|) + Read(b)
    decreases |b|
  {
    if b == "" {
      assert a + b == a;
    } else {
      var front, c := b[..|b| - 1], b[|b| - 1];
      ReadAppend(a, front);
      ReadSnoc(a + front, c);
      ReadSnoc(front, c);
      assert b == front + [c] && a + b == (a + front) + [c];
      Shift(Read(a), Pow10(|front|), Read(front), DigitValue(c));
    }
  }

  /**
   The value of a decimal text: all its digits read as one number, over the power of ten of its fraction
   digits.
   */
  lemma ValueMeaning(m: Numeral)
    requires Proper(m)
    ensures AllDigits(m.whole + m.fraction)
    ensures var magnitude := Read(m.whole + m.fraction) as real / Pow10(|m.fraction|) as real;
      ValueOf(m) == if m.negative then -magnitude else magnitude
  {
    ReadAppend(m.whole, m.fraction);
    Scaled(Read(m.whole), Read(m.fraction), Pow10(|m.fraction|));
  }

  lemma {:induction false} Scaled(w: nat, f: nat, p: nat)
    requires p >= 1
    ensures w as real + f as real / p as real == (w * p + f) as real / p as real
  {
    assert (w * p) as real == w as real * p as real;
    assert w as real * p as real / p as real == w as real;
  }

  /** Saving `1.5`. */
  lemma DecimalExample()
    ensures MatchesNumber("1.5") && NumberOf("1.5") == 1.5
  {
    var m := Numeral(false, "1", "5");
    TextMatches(m);
    assert Text(m) == "1.5";
    Fifteen();
    ValueMeaning(m);
  }

  lemma Fifteen()
    ensures "1" + "5" == "15" && AllDigits("15") && Read("15") == 15 && Pow10(1) == 10
  {
    assert "15"[..1] == "1" && "1"[..0] == "";
    assert Read("1") == 1;
    assert Pow10(1) == 10 * Pow10(0);
  }

  function NumberOf(s: string): real
    requires MatchesNumber(s)
  {
    MatchesIff(s);
    ValueOf(Parts(s))
  }

  /** `parseDraft` when the original value is a scalar. */
  function ParseDraft(draft: string): Value {
    var trimmed := Trim(draft);
    if trimmed == "null" then Null
    else if trimmed == "true" then Bool(true)
    else if trimmed == "false" then Bool(false)
    else if trimmed != "" && MatchesNumber(trimmed) then Num(NumberOf(trimmed))
    else Str(draft)
  }

  // ----- Open, then save -----

  lemma NotTrimmed(s: string)
    requires s != "" && !IsSpace(s[0]) && !IsSpace(s[|s| - 1])
    ensures Trim(s) == s
  {
  }

  lemma PrintedInt(n: int)
    ensures var s := PrintInt(n);
      && s != "" && (s[0] == '-' || IsDigit(s[0])) && IsDigit(s[|s| - 1])
      && MatchesNumber(s) && Parts(s) == Numeral(n < 0, Print(if n < 0 then -n else n), "")
  {
    var m := Numeral(n < 0, Print(if n < 0 then -n else n), "");
    TextMatches(m);
    assert Text(m) == PrintInt(n);
    assert PrintInt(n)[|PrintInt(n)| - 1] == m.whole[|m.whole| - 1];
  }

  /** Saving an untouched integer gives it back: its decimal text is read as the same number. */
  lemma IntegerRoundTrip(n: int, show: real -> string)
    requires -MAX_SAFE <= n <= MAX_SAFE
    ensures ParseDraft(DefaultDraft(Num(n as real), show)) == Num(n as real)
  {
    var s := PrintInt(n);
    PrintedInt(n);
    NotTrimmed(s);
    assert (n as real).Floor == n;
    assert NumberOf(s) == n as real by {
      assert Read("") == 0 && Pow10(0) == 1;
    }
    assert s != "null" && s != "true" && s != "false";
  }

  /** Null and booleans come back as they were; `undefined` comes back as null. */
  lemma KeywordRoundTrip(b: bool, show: real -> string)
    ensures ParseDraft(DefaultDraft(Null, show)) == Null
    ensures ParseDraft(DefaultDraft(Bool(b), show)) == Bool(b)
    ensures ParseDraft(DefaultDraft(Undefined, show)) == Null
  {
    NotTrimmed("null");
    NotTrimmed("true");
    NotTrimmed("false");
  }

  /** A string comes back exactly when, trimmed, it is neither a keyword nor a number text. */
  lemma StringRoundTripIff(s: string, show: real -> string)
    ensures ParseDraft(DefaultDraft(Str(s), show)) == Str(s)
      <==> Trim(s) != "null" && Trim(s) != "true" && Trim(s) != "false"
           && !exists m :: Proper(m) && Text(m) == Trim(s)
  {
    MatchesIff(Trim(s));
    if Trim(s) == "" {
      assert !MatchesNumber("");
    }
  }
}
