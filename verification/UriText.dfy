/**
 Connection strings as texts (mongo-uri/src/lib.rs): the option, the delimiters and the escapes are written
 out here.
 */
module UriText {
  import opened ByteStrings
  import opened ConnectionString
  import Options

  lemma OptionText()
    ensures DIRECT == Ascii("directConnection=") && DIRECT_TRUE == Ascii("directConnection=true")
    ensures SCHEME_END == Ascii("://")
  {
  }

  /** Pinning appends the option, after `&` if there is a `?` already and after `?` otherwise. */
  lemma PinMeaning(uri: Bytes)
    ensures ForceDirectConnection(uri) ==
      if Contains(uri, Ascii("directConnection=")) then uri
      else if Ascii("?")[0] in uri then uri + Ascii("&") + Ascii("directConnection=true")
      else uri + Ascii("?") + Ascii("directConnection=true")
  {
    OptionText();
    assert Ascii("&") == [AMPERSAND] && Ascii("?") == [QUESTION];
  }

  /** Hexadecimal digits, of either case. */
  lemma HexMeaning(b: Byte)
    ensures var c := b as char;
      HexValue(b) ==
        if '0' <= c <= '9' then Options.Some(b as int - '0' as int)
        else if 'a' <= c <= 'f' then Options.Some(b as int - 'a' as int + 10)
        else if 'A' <= c <= 'F' then Options.Some(b as int - 'A' as int + 10)
        else Options.None
  {
  }

  /** `%` before two hexadecimal digits stands with them for one byte; every other byte stands for itself. */
  lemma DecodeMeaning(s: Bytes)
    ensures s == [] ==> PercentDecode(s) == []
    ensures s != [] ==>
      if s[0] as char == '%' && |s| >= 3 && HexValue(s[1]).Some? && HexValue(s[2]).Some?
      then PercentDecode(s) == [(16 * HexValue(s[1]).value + HexValue(s[2]).value) as Byte] + PercentDecode(s[3..])
      else PercentDecode(s) == [s[0]] + PercentDecode(s[1..])
  {
  }

  /** So an escape is read in either case: `%3A` and `%3a` are a colon. */
  lemma CaseExample()
    ensures PercentDecode(Ascii("%3A")) == PercentDecode(Ascii("%3a")) == Ascii(":")
  {
    var upper, lower := Ascii("%3A"), Ascii("%3a");
    assert upper[3..] == [] && lower[3..] == [];
    HexMeaning(upper[1]);
    HexMeaning(upper[2]);
    HexMeaning(lower[2]);
    DecodeMeaning(upper);
    DecodeMeaning(lower);
  }
}
