/**
 SQLite's LIKE operator, the query escaper built for it, and what the two together mean.
 */
module Like {
  import opened Wrappers
  import opened Text

  /** LIKE compares ASCII letters without case. */
  predicate SameLetter(a: char, b: char) {
    LowerChar(a) == LowerChar(b)
  }

  /** `text LIKE pattern`, with ESCAPE when `escape` is given. */
  predicate Matches(pattern: string, text: string, escape: Option<char>)
    decreases |pattern| + |text|
  {
    if pattern == "" then text == ""
    else if pattern[0] == '%' then
      Matches(pattern[1..], text, escape) || (text != "" && Matches(pattern, text[1..], escape))
    else if Some(pattern[0]) == escape then
      |pattern| > 1 && text != "" && SameLetter(pattern[1], text[0]) && Matches(pattern[2..], text[1..], escape)
    else
      text != "" && (pattern[0] == '_' || SameLetter(pattern[0], text[0])) && Matches(pattern[1..], text[1..], escape)
  }

  const BACKSLASH: Option<char> := Some('\\')

  function EscapeChar(c: char): string {
    if c == '\\' || c == '%' || c == '_' then ['\\', c] else [c]
  }

  /** The replacer applied to a query before it is put in a pattern. */
  function Escape(query: string): string {
    if query == "" then "" else EscapeChar(query[0]) + Escape(query[1..])
  }

  /** The pattern that a search for `query` runs with. */
  function SearchPattern(query: string): string {
    "%" + Escape(query) + "%"
  }

  lemma {:induction false} PercentMatchesAll(text: string, escape: Option<char>)
    ensures Matches("%", text, escape)
  {
    if text != "" {
      PercentMatchesAll(text[1..], escape);
    }
  }

  /** A leading "%" lets the rest of the pattern start at any position. */
  lemma {:induction false} PercentSkips(pattern: string, text: string, escape: Option<char>)
    ensures Matches("%" + pattern, text, escape) <==> exists k :: 0 <= k <= |text| && Matches(pattern, text[k..], escape)
  {
    assert ("%" + pattern)[1..] == pattern;
    assert text[0..] == text;
    if text != "" {
      PercentSkips(pattern, text[1..], escape);
      forall k | 0 <= k <= |text[1..]|
        ensures text[1..][k..] == text[k + 1..]
      {
      }
      if k :| 0 <= k <= |text| && Matches(pattern, text[k..], escape) {
        if k > 0 {
          assert text[1..][k - 1..] == text[k..];
        }
      }
    }
  }

  lemma ConsPrefix(a: char, s: string, b: char, t: string)
    ensures [a] + s <= [b] + t <==> a == b && s <= t
  {
    if [a] + s <= [b] + t {
      assert ([a] + s)[0] == ([b] + t)[0];
      assert s == ([a] + s)[1..] && t == ([b] + t)[1..];
    }
  }

  /** One character of an escaped query consumes one equal character of the text. */
  lemma EscapedStep(c: char, rest: string, text: string)
    requires text != ""
    ensures Matches(EscapeChar(c) + rest, text, BACKSLASH) <==> SameLetter(c, text[0]) && Matches(rest, text[1..], BACKSLASH)
  {
  }

  lemma EscapeCons(query: string)
    requires query != ""
    ensures Escape(query) + "%" == EscapeChar(query[0]) + (Escape(query[1..]) + "%")
  {
  }

  lemma LowerCons(s: string)
    requires s != ""
    ensures Lower(s) == [LowerChar(s[0])] + Lower(s[1..])
  {
  }

  /** An escaped query followed by "%" matches the texts that begin with the query, case aside. */
  lemma {:induction false} EscapedPrefix(query: string, text: string)
    ensures Matches(Escape(query) + "%", text, BACKSLASH) <==> Lower(query) <= Lower(text)
  {
    if query == "" {
      assert Escape(query) + "%" == "%";
      PercentMatchesAll(text, BACKSLASH);
    } else if text == "" {
      EscapeCons(query);
      NothingMatchesEmpty(query[0], Escape(query[1..]) + "%");
    } else {
      EscapeCons(query);
      EscapedStep(query[0], Escape(query[1..]) + "%", text);
      EscapedPrefix(query[1..], text[1..]);
      LowerCons(query);
      LowerCons(text);
      ConsPrefix(LowerChar(query[0]), Lower(query[1..]), LowerChar(text[0]), Lower(text[1..]));
    }
  }

  lemma NothingMatchesEmpty(c: char, rest: string)
    ensures !Matches(EscapeChar(c) + rest, "", BACKSLASH)
  {
  }

  lemma LowerSuffix(text: string, k: nat)
    requires k <= |text|
    ensures |Lower(text)| == |text| && Lower(text[k..]) == Lower(text)[k..]
  {
  }

  /**
   The search pattern finds exactly the texts that hold the query as a literal substring,
   whatever "%", "_" or "\" either of them contains.
   */
  lemma SearchPatternMeansContains(query: string, text: string)
    ensures Matches(SearchPattern(query), text, BACKSLASH) <==> Contains(Lower(text), Lower(query))
  {
    hide Matches, Escape, Lower;
    var p := Escape(query) + "%";
    assert SearchPattern(query) == "%" + p;
    PercentSkips(p, text, BACKSLASH);
    LowerSuffix(text, 0);
    forall k | 0 <= k <= |text|
      ensures Matches(p, text[k..], BACKSLASH) <==> Lower(query) <= Lower(text)[k..]
    {
      EscapedPrefix(query, text[k..]);
      LowerSuffix(text, k);
    }
  }

  /** Unescaped, as the tag listing uses it: a string followed by "%" still matches itself. */
  lemma {:induction false} PrefixMatchesItself(name: string)
    ensures Matches(name + "%", name, None)
  {
    if name == "" {
      assert name + "%" == "%";
      PercentMatchesAll("", None);
    } else {
      PrefixMatchesItself(name[1..]);
      assert (name + "%")[1..] == name[1..] + "%";
    }
  }

  predicate HasWildcard(p: string) {
    '%' in p || '_' in p
  }

  lemma {:induction false} PlainPrefix(prefix: string, text: string)
    requires !HasWildcard(prefix)
    ensures Matches(prefix + "%", text, None) <==> Lower(prefix) <= Lower(text)
  {
    if prefix == "" {
      assert prefix + "%" == "%";
      PercentMatchesAll(text, None);
    } else if text != "" {
      assert (prefix + "%")[1..] == prefix[1..] + "%";
      PlainPrefix(prefix[1..], text[1..]);
      LowerCons(prefix);
      LowerCons(text);
      ConsPrefix(LowerChar(prefix[0]), Lower(prefix[1..]), LowerChar(text[0]), Lower(text[1..]));
    }
  }

  /** A text that the pattern takes in although it does not begin with the prefix. */
  function LooseMatch(prefix: string): string
    requires HasWildcard(prefix)
  {
    if prefix[0] == '%' then prefix[1..]
    else if prefix[0] == '_' then "x" + prefix[1..]
    else [prefix[0]] + LooseMatch(prefix[1..])
  }

  lemma {:induction false} LooseMatchMatches(prefix: string)
    requires HasWildcard(prefix)
    ensures Matches(prefix + "%", LooseMatch(prefix), None)
  {
    var rest := prefix[1..];
    assert (prefix + "%")[1..] == rest + "%";
    if prefix[0] == '%' || prefix[0] == '_' {
      PrefixMatchesItself(rest);
      assert prefix[0] == '_' ==> LooseMatch(prefix)[1..] == rest;
    } else {
      LooseMatchMatches(rest);
      assert LooseMatch(prefix)[1..] == LooseMatch(rest);
    }
  }

  lemma {:induction false} LooseMatchDiffers(prefix: string)
    requires HasWildcard(prefix)
    ensures !(Lower(prefix) <= Lower(LooseMatch(prefix)))
  {
    var text := LooseMatch(prefix);
    if prefix[0] != '%' {
      LowerCons(prefix);
      LowerCons(text);
      ConsPrefix(LowerChar(prefix[0]), Lower(prefix[1..]), LowerChar(text[0]), Lower(text[1..]));
      if prefix[0] != '_' {
        assert text[1..] == LooseMatch(prefix[1..]);
        LooseMatchDiffers(prefix[1..]);
      }
    }
  }

  /** The unescaped pattern filters by prefix, case aside, exactly when the prefix holds no wildcard. */
  lemma UnescapedPrefixIff(prefix: string)
    ensures (forall text :: Matches(prefix + "%", text, None) <==> Lower(prefix) <= Lower(text)) <==> !HasWildcard(prefix)
  {
    if HasWildcard(prefix) {
      LooseMatchMatches(prefix);
      LooseMatchDiffers(prefix);
    } else {
      forall text { PlainPrefix(prefix, text); }
    }
  }
}
