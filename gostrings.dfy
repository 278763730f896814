/**
 * The few functions of Go's `strings` package that the sync engine uses,
 * over strings as sequences of characters.
 */
module GoStrings {

  /** `strings.HasPrefix(s, prefix)`. */
  predicate HasPrefix(s: string, prefix: string) {
    prefix <= s
  }

  /** `strings.TrimPrefix(s, prefix)`: drops `prefix` once if `s` starts with it. */
  function TrimPrefix(s: string, prefix: string): (r: string)
    ensures HasPrefix(s, prefix) ==> s == prefix + r
    ensures !HasPrefix(s, prefix) ==> r == s
  {
    if HasPrefix(s, prefix) then s[|prefix|..] else s
  }

  /** `strings.Join([]string{a, b}, "/")`. */
  function Join(a: string, b: string): string {
    a + "/" + b
  }

  predicate AllQuotes(s: string) {
    forall i :: 0 <= i < |s| ==> s[i] == '"'
  }

  /** `strings.TrimLeft(s, "\"")`. */
  function TrimLeftQuotes(s: string): string {
    if |s| > 0 && s[0] == '"' then TrimLeftQuotes(s[1..]) else s
  }

  /** `strings.TrimRight(s, "\"")`. */
  function TrimRightQuotes(s: string): string {
    if |s| > 0 && s[|s| - 1] == '"' then TrimRightQuotes(s[..|s| - 1]) else s
  }

  /** `strings.Trim(s, "\"")`: every leading and every trailing quote removed. */
  function TrimQuotes(s: string): string {
    TrimRightQuotes(TrimLeftQuotes(s))
  }

  lemma {:induction false} TrimLeftQuotesSplits(s: string)
    ensures var r := TrimLeftQuotes(s);
      |r| <= |s| && s[|s| - |r|..] == r && AllQuotes(s[..|s| - |r|]) && (r == [] || r[0] != '"')
    decreases |s|
  {
    if |s| > 0 && s[0] == '"' {
      TrimLeftQuotesSplits(s[1..]);
      var r := TrimLeftQuotes(s[1..]);
      assert s[1..][..|s| - 1 - |r|] == s[1..|s| - |r|];
      assert forall i :: 1 <= i < |s| - |r| ==> s[i] == s[1..][..|s| - 1 - |r|][i - 1];
    }
  }

  lemma {:induction false} TrimRightQuotesSplits(s: string)
    ensures var r := TrimRightQuotes(s);
      |r| <= |s| && s[..|r|] == r && AllQuotes(s[|r|..]) && (r == [] || r[|r| - 1] != '"')
    decreases |s|
  {
    if |s| > 0 && s[|s| - 1] == '"' {
      var t := s[..|s| - 1];
      TrimRightQuotesSplits(t);
      var r := TrimRightQuotes(t);
      assert t[|r|..] == s[|r|..|s| - 1];
      assert forall i :: |r| <= i < |s| - 1 ==> s[i] == t[|r|..][i - |r|];
    }
  }

  /**
   * The ETag normalisation: the result is the middle of `s`, framed by
   * quote-only runs, and neither starts nor ends with a quote.
   */
  lemma TrimQuotesSplits(s: string)
    ensures var r := TrimQuotes(s);
      exists i :: 0 <= i && i + |r| <= |s| && s[i..i + |r|] == r
        && AllQuotes(s[..i]) && AllQuotes(s[i + |r|..])
    ensures var r := TrimQuotes(s); r == [] || (r[0] != '"' && r[|r| - 1] != '"')
  {
    var l := TrimLeftQuotes(s);
    TrimLeftQuotesSplits(s);
    TrimRightQuotesSplits(l);
    var r := TrimRightQuotes(l);
    var i := |s| - |l|;
    assert s[i..] == l;
    assert s[i..i + |r|] == l[..|r|] == r;
    assert s[i + |r|..] == l[|r|..];
    assert AllQuotes(s[..i]) && AllQuotes(s[i + |r|..]);
  }

  /** A quote-free tag wrapped in one pair of quotes comes back unchanged. */
  lemma {:induction false} TrimQuotesUnwraps(tag: string)
    requires tag == [] || (tag[0] != '"' && tag[|tag| - 1] != '"')
    ensures TrimQuotes("\"" + tag + "\"") == tag
  {
    var s := "\"" + tag + "\"";
    assert s[1..] == tag + "\"";
    assert TrimLeftQuotes(s) == TrimLeftQuotes(tag + "\"");
    if tag == [] {
      assert TrimLeftQuotes("\"") == TrimLeftQuotes([]);
      assert TrimRightQuotes([]) == [];
    } else {
      assert TrimLeftQuotes(tag + "\"") == tag + "\"";
      assert (tag + "\"")[..|tag|] == tag;
    }
  }

  /** Stripping a prefix that is there undoes prepending it. */
  lemma TrimPrefixOfConcat(prefix: string, rest: string)
    ensures TrimPrefix(prefix + rest, prefix) == rest
  {
    assert HasPrefix(prefix + rest, prefix);
  }
}
