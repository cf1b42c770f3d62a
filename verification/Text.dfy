/**
 ASCII text as the program and SQLite handle it: byte order, case folding, trimming,
 substring search, and lists packed into one string with "|".
 */
module Text {
  import opened Sequences

  // ---------- order ----------

  /** Byte-wise order: Go's `<=` on strings and SQLite's BINARY collation. */
  predicate Le(a: string, b: string) {
    a == "" || (b != "" && (a[0] < b[0] || (a[0] == b[0] && Le(a[1..], b[1..]))))
  }

  lemma {:induction false} LeTotal(a: string, b: string)
    ensures Le(a, b) || Le(b, a)
  {
    if a != "" && b != "" && a[0] == b[0] {
      LeTotal(a[1..], b[1..]);
    }
  }

  lemma {:induction false} LeTransitive(a: string, b: string, c: string)
    requires Le(a, b) && Le(b, c)
    ensures Le(a, c)
  {
    if a != "" && a[0] == b[0] == c[0] {
      LeTransitive(a[1..], b[1..], c[1..]);
    }
  }

  lemma {:induction false} LeAntisymmetric(a: string, b: string)
    requires Le(a, b) && Le(b, a)
    ensures a == b
  {
    if a != "" {
      LeAntisymmetric(a[1..], b[1..]);
      assert a == [a[0]] + a[1..] && b == [b[0]] + b[1..];
    }
  }

  lemma LeOrder()
    ensures Order(Le)
    ensures forall x, y :: Le(x, y) && Le(y, x) ==> x == y
  {
    forall a, b ensures Le(a, b) || Le(b, a) { LeTotal(a, b); }
    forall a, b, c | Le(a, b) && Le(b, c) ensures Le(a, c) { LeTransitive(a, b, c); }
    forall a, b | Le(a, b) && Le(b, a) ensures a == b { LeAntisymmetric(a, b); }
  }

  /** The strings agree up to a place where the one ends or has the smaller character. */
  ghost predicate Precedes(a: string, b: string) {
    a <= b || exists k :: FirstLess(a, b, k)
  }

  ghost predicate FirstLess(a: string, b: string, k: int) {
    0 <= k < |a| && k < |b| && a[..k] == b[..k] && a[k] < b[k]
  }

  lemma {:induction false} LeMeans(a: string, b: string)
    ensures Le(a, b) <==> Precedes(a, b)
  {
    if a != "" && b != "" && a[0] == b[0] {
      LeMeans(a[1..], b[1..]);
      OrderCons(a, b);
    } else if a != "" && b != "" {
      assert a[0] < b[0] ==> FirstLess(a, b, 0);
      forall k | FirstLess(a, b, k) ensures k == 0 { FirstLessAtStart(a, b, k); }
    }
  }

  lemma FirstLessAtStart(a: string, b: string, k: int)
    requires FirstLess(a, b, k)
    ensures k == 0 || a[0] == b[0]
  {
    assert k == 0 || a[..k][0] == b[..k][0];
  }

  lemma OrderCons(a: string, b: string)
    requires a != "" && b != "" && a[0] == b[0]
    ensures Precedes(a, b) <==> Precedes(a[1..], b[1..])
  {
    var s, t := a[1..], b[1..];
    assert a == [a[0]] + s && b == [b[0]] + t;
    if k :| FirstLess(a, b, k) {
      assert a[..k] == b[..k];
      assert s[..k - 1] == a[..k][1..] && t[..k - 1] == b[..k][1..];
      assert FirstLess(s, t, k - 1);
    }
    if k :| FirstLess(s, t, k) {
      assert a[..k + 1] == [a[0]] + s[..k] && b[..k + 1] == [b[0]] + t[..k];
      assert FirstLess(a, b, k + 1);
    }
    if s <= t {
      assert a <= b;
    }
    if a <= b {
      assert s == a[1..] && t[..|s|] == b[..|a|][1..];
    }
  }

  ghost predicate StrictlySorted(s: seq<string>) {
    Sorted(Le, s) && Distinct(s)
  }

  /** A set of strings has one strictly sorted listing. */
  lemma ListingUnique(a: seq<string>, b: seq<string>)
    requires StrictlySorted(a) && StrictlySorted(b) && Elements(a) == Elements(b)
    ensures a == b
  {
    LeOrder();
    DistinctMultisetUnique(a, b);
    SortedUnique(Le, a, b);
  }

  lemma SortedListing(s: seq<string>)
    requires Distinct(s)
    ensures StrictlySorted(SortBy(Le, s)) && Elements(SortBy(Le, s)) == Elements(s)
  {
    LeOrder();
    SortBySorted(Le, s);
    PermutationDistinct(s, SortBy(Le, s));
  }

  /** `ss[..i + 1]` is in order but for the pairs whose right end is position `j`. */
  ghost predicate SortedBut(ss: seq<string>, i: int, j: int) {
    forall x, y :: 0 <= x < y <= i && y < |ss| && y != j ==> Le(ss[x], ss[y])
  }

  ghost predicate Rearranged(ss: seq<string>, was: seq<string>) {
    multiset(ss) == multiset(was)
  }

  lemma SortedButFirst(ss: seq<string>)
    ensures SortedBut(ss, 1, 1) && Rearranged(ss, ss)
  {
  }

  lemma SwapKeepsOrder(ss: seq<string>, i: nat, j: nat, was: seq<string>)
    requires 0 < j <= i < |ss| && SortedBut(ss, i, j) && !Le(ss[j - 1], ss[j]) && Rearranged(ss, was)
    ensures SortedBut(ss[j - 1 := ss[j]][j := ss[j - 1]], i, j - 1)
    ensures Rearranged(ss[j - 1 := ss[j]][j := ss[j - 1]], was)
  {
    LeOrder();
    SwapMultiset(ss, j - 1, j);
  }

  /** The Go insertion sort leaves the sorted arrangement of the slice it was given. */
  method SortStrings(ss: array<string>)
    modifies ss
    ensures ss[..] == SortBy(Le, old(ss[..]))
  {
    hide SortBy, Le, SortedBut, Rearranged;
    ghost var was := ss[..];
    var i := 1;
    SortedButFirst(ss[..]);
    while i < ss.Length
      invariant 1 <= i
      invariant SortedBut(ss[..], i, i)
      invariant Rearranged(ss[..], was)
    {
      var j := i;
      while j > 0 && !Le(ss[j - 1], ss[j])
        invariant 0 <= j <= i < ss.Length
        invariant SortedBut(ss[..], i, j)
        invariant Rearranged(ss[..], was)
      {
        ghost var before := ss[..];
        SwapKeepsOrder(before, i, j, was);
        ss[j], ss[j - 1] := ss[j - 1], ss[j];
        assert ss[..] == before[j - 1 := before[j]][j := before[j - 1]];
        j := j - 1;
      }
      SunkInPlace(ss[..], i, j);
      i := i + 1;
    }
    SortedIsSort(ss[..], i, was);
  }

  lemma SortedIsSort(ss: seq<string>, i: nat, was: seq<string>)
    requires |ss| <= i && SortedBut(ss, i, i)
    requires Rearranged(ss, was)
    ensures ss == SortBy(Le, was)
  {
    LeOrder();
    SortBySorted(Le, was);
    SortedUnique(Le, ss, SortBy(Le, was));
  }

  lemma SunkInPlace(ss: seq<string>, i: nat, j: nat)
    requires j <= i < |ss| && SortedBut(ss, i, j) && (j > 0 ==> Le(ss[j - 1], ss[j]))
    ensures SortedBut(ss, i + 1, i + 1)
  {
    LeOrder();
    forall x | 0 <= x < j
      ensures Le(ss[x], ss[j])
    {
      assert x < j - 1 ==> Le(ss[x], ss[j - 1]);
    }
  }

  /** The Go loop with its `seen` map. */
  method Dedup(ss: seq<string>) returns (result: seq<string>)
    ensures result == FirstOccurrences(ss)
  {
    var seen: set<string> := {};
    result := [];
    for k := 0 to |ss|
      invariant seen == Elements(ss[..k])
      invariant result == FirstOccurrences(ss[..k])
    {
      assert ss[..k + 1][..k] == ss[..k];
      if ss[k] !in seen {
        seen := seen + {ss[k]};
        result := result + [ss[k]];
      }
    }
    assert ss[..|ss|] == ss;
  }

  // ---------- case and blanks ----------

  function LowerChar(c: char): char {
    if 'A' <= c <= 'Z' then c + 32 as char else c
  }

  function Lower(s: string): (r: string)
    ensures |r| == |s|
    ensures forall k :: 0 <= k < |s| ==> r[k] == LowerChar(s[k])
  {
    if s == "" then "" else [LowerChar(s[0])] + Lower(s[1..])
  }

  lemma LowerIdempotent(s: string)
    ensures Lower(Lower(s)) == Lower(s)
  {
  }

  /** The same character, or the same letter in the other case: capitals are 32 below small letters. */
  predicate SameCharButCase(a: char, b: char) {
    || a == b
    || ('A' <= a <= 'Z' && b as int == a as int + 32)
    || ('A' <= b <= 'Z' && a as int == b as int + 32)
  }

  predicate SameButCase(a: string, b: string) {
    |a| == |b| && forall k :: 0 <= k < |a| ==> SameCharButCase(a[k], b[k])
  }

  predicate HasCapital(s: string) {
    exists k :: 0 <= k < |s| && 'A' <= s[k] <= 'Z'
  }

  lemma LowerCharMeans(a: char, b: char)
    ensures LowerChar(a) == LowerChar(b) <==> SameCharButCase(a, b)
    ensures LowerChar(a) == a <==> !('A' <= a <= 'Z')
    ensures !('A' <= LowerChar(a) <= 'Z') && SameCharButCase(a, LowerChar(a))
  {
  }

  /** Folding case identifies exactly the strings that differ in case alone. */
  lemma LowerMeans(a: string, b: string)
    ensures Lower(a) == Lower(b) <==> SameButCase(a, b)
  {
    hide Lower, LowerChar, SameCharButCase;
    LowerLength(a);
    LowerLength(b);
    forall k | 0 <= k < |a| && k < |b|
      ensures Lower(a)[k] == Lower(b)[k] <==> SameCharButCase(a[k], b[k])
    {
      LowerCharMeans(a[k], b[k]);
    }
  }

  /** Folding leaves no capital, changes case alone, and changes nothing exactly where there is no capital. */
  lemma LowerFolds(a: string)
    ensures Lower(a) == a <==> !HasCapital(a)
    ensures SameButCase(a, Lower(a)) && !HasCapital(Lower(a))
  {
    hide Lower, LowerChar, SameCharButCase;
    LowerLength(a);
    forall k | 0 <= k < |a|
      ensures (Lower(a)[k] == a[k] <==> !('A' <= a[k] <= 'Z')) && SameCharButCase(a[k], Lower(a)[k]) && !('A' <= Lower(a)[k] <= 'Z')
    {
      LowerCharMeans(a[k], a[k]);
    }
  }

  /** A string is another one folded exactly when it has no capital and is the same but for case. */
  lemma IsLowerOf(n: string, s: string)
    ensures n == Lower(s) <==> !HasCapital(n) && SameButCase(n, s)
  {
    hide Lower, SameButCase, HasCapital;
    LowerMeans(n, s);
    LowerFolds(n);
    LowerFolds(s);
    LowerMeans(Lower(s), s);
    LowerIdempotent(s);
  }

  /** `query` stands at position `k` of `text`, case aside. */
  predicate OccursAt(query: string, text: string, k: int) {
    0 <= k && k + |query| <= |text| && SameButCase(text[k..k + |query|], query)
  }

  ghost predicate Occurs(query: string, text: string) {
    exists k :: OccursAt(query, text, k)
  }

  lemma OccursAtMeans(query: string, text: string, k: nat)
    requires k <= |text|
    ensures OccursAt(query, text, k) <==> Lower(query) <= Lower(text)[k..]
  {
    hide Lower, SameButCase;
    LowerLength(query);
    LowerLength(text);
    if k + |query| <= |text| {
      LowerMeans(text[k..k + |query|], query);
      LowerSlice(text, k, k + |query|);
      PrefixIsSlice(Lower(query), Lower(text), k);
    }
  }

  lemma LowerSlice(text: string, i: nat, j: nat)
    requires i <= j <= |text|
    ensures |Lower(text)| == |text| && Lower(text[i..j]) == Lower(text)[i..j]
  {
    hide Lower;
  }

  lemma PrefixIsSlice(a: string, b: string, k: nat)
    requires k + |a| <= |b|
    ensures a <= b[k..] <==> a == b[k..k + |a|]
  {
    assert b[k..][..|a|] == b[k..k + |a|];
  }

  /** Containment of folded texts is occurrence, case aside. */
  lemma OccursMeans(query: string, text: string)
    ensures Contains(Lower(text), Lower(query)) <==> Occurs(query, text)
  {
    hide Lower, OccursAt;
    LowerLength(text);
    forall k | 0 <= k <= |text|
      ensures OccursAt(query, text, k) <==> Lower(query) <= Lower(text)[k..]
    {
      OccursAtMeans(query, text, k);
    }
    forall k | OccursAt(query, text, k) ensures 0 <= k <= |text| { OccursInside(query, text, k); }
  }

  lemma LowerLength(s: string)
    ensures |Lower(s)| == |s|
  {
  }

  lemma OccursInside(query: string, text: string, k: int)
    requires OccursAt(query, text, k)
    ensures 0 <= k <= |text|
  {
  }

  function LowerAll(ss: seq<string>): (r: seq<string>)
    ensures |r| == |ss|
    ensures forall k :: 0 <= k < |ss| ==> r[k] == Lower(ss[k])
  {
    Map(Lower, ss)
  }

  /** Go's unicode.IsSpace on ASCII. */
  predicate IsSpace(c: char) {
    c == ' ' || '\t' <= c <= '\r'
  }

  /** SQLite's TRIM with one argument strips only this. */
  predicate IsBlank(c: char) {
    c == ' '
  }

  function TrimLeft(p: char -> bool, s: string): string {
    if s != "" && p(s[0]) then TrimLeft(p, s[1..]) else s
  }

  function TrimRight(p: char -> bool, s: string): string {
    if s != "" && p(s[|s| - 1]) then TrimRight(p, s[..|s| - 1]) else s
  }

  function TrimSpace(s: string): string {
    TrimRight(IsSpace, TrimLeft(IsSpace, s))
  }

  function SqlTrim(s: string): string {
    TrimRight(IsBlank, TrimLeft(IsBlank, s))
  }

  /** `core` is `s` without the characters of `p` at either end. */
  ghost predicate IsCore(p: char -> bool, s: string, core: string) {
    exists i, j :: CoreBetween(p, s, core, i, j)
  }

  ghost predicate CoreBetween(p: char -> bool, s: string, core: string, i: int, j: int) {
    && 0 <= i <= j <= |s| && core == s[i..j]
    && (forall k :: 0 <= k < i ==> p(s[k])) && (forall k :: j <= k < |s| ==> p(s[k]))
    && (core != "" ==> !p(core[0]) && !p(core[|core| - 1]))
  }

  lemma {:induction false} TrimLeftMeans(p: char -> bool, s: string) returns (i: nat)
    ensures i <= |s| && TrimLeft(p, s) == s[i..]
    ensures forall k :: 0 <= k < i ==> p(s[k])
    ensures i < |s| ==> !p(s[i])
  {
    if s != "" && p(s[0]) {
      var i' := TrimLeftMeans(p, s[1..]);
      i := i' + 1;
      assert s[1..][i'..] == s[i..];
      assert forall k :: 0 < k < i ==> s[k] == s[1..][k - 1];
    } else {
      i := 0;
    }
  }

  lemma {:induction false} TrimRightMeans(p: char -> bool, s: string) returns (j: nat)
    ensures j <= |s| && TrimRight(p, s) == s[..j]
    ensures forall k :: j <= k < |s| ==> p(s[k])
    ensures j > 0 ==> !p(s[j - 1])
    decreases |s|
  {
    if s != "" && p(s[|s| - 1]) {
      j := TrimRightMeans(p, s[..|s| - 1]);
      assert s[..|s| - 1][..j] == s[..j];
    } else {
      j := |s|;
    }
  }

  lemma TrimIsCore(p: char -> bool, s: string)
    ensures IsCore(p, s, TrimRight(p, TrimLeft(p, s)))
  {
    var i := TrimLeftMeans(p, s);
    var rest := TrimLeft(p, s);
    var j := TrimRightMeans(p, rest);
    var core := TrimRight(p, rest);
    assert core == s[i..i + j];
    assert forall k :: i + j <= k < |s| ==> s[k] == rest[k - i];
    assert CoreBetween(p, s, core, i, i + j);
  }

  lemma CoreEmptyIff(p: char -> bool, s: string, core: string, i: int, j: int)
    requires CoreBetween(p, s, core, i, j)
    ensures core == "" <==> forall k :: 0 <= k < |s| ==> p(s[k])
  {
    if core != "" {
      assert s[i] == core[0];
    }
  }

  lemma CoreUnique(p: char -> bool, s: string, c: string, d: string)
    requires IsCore(p, s, c) && IsCore(p, s, d)
    ensures c == d
  {
    var i, j :| CoreBetween(p, s, c, i, j);
    var m, n :| CoreBetween(p, s, d, m, n);
    CoreEmptyIff(p, s, c, i, j);
    CoreEmptyIff(p, s, d, m, n);
    if c != "" {
      assert s[i] == c[0] && s[m] == d[0];
      assert s[j - 1] == c[|c| - 1] && s[n - 1] == d[|d| - 1];
    }
  }

  /** Trimming leaves exactly the core: nothing but `p` around it, and no `p` at its ends. */
  lemma TrimMeans(p: char -> bool, s: string, core: string)
    ensures core == TrimRight(p, TrimLeft(p, s)) <==> IsCore(p, s, core)
  {
    hide IsCore;
    TrimIsCore(p, s);
    if IsCore(p, s, core) {
      CoreUnique(p, s, core, TrimRight(p, TrimLeft(p, s)));
    }
  }

  /** Tab, line feed, vertical tab, form feed, carriage return and space, by their codes. */
  predicate IsWhite(c: char) {
    c as int in {9, 10, 11, 12, 13, 32}
  }

  /** What Go's TrimSpace strips of ASCII text. */
  lemma TrimSpaceMeans(s: string, core: string)
    ensures core == TrimSpace(s) <==> IsCore(IsWhite, s, core)
  {
    TrimMeans(IsSpace, s, core);
    SameCore(IsSpace, IsWhite, s, core);
  }

  lemma SameCore(p: char -> bool, q: char -> bool, s: string, core: string)
    requires forall c :: p(c) == q(c)
    ensures IsCore(p, s, core) <==> IsCore(q, s, core)
  {
    if i, j :| CoreBetween(p, s, core, i, j) { assert CoreBetween(q, s, core, i, j); }
    if i, j :| CoreBetween(q, s, core, i, j) { assert CoreBetween(p, s, core, i, j); }
  }

  /** Blanks around cores that are the same but for case. */
  ghost predicate SameName(a: string, b: string) {
    exists c, d :: IsCore(x => x == ' ', a, c) && IsCore(x => x == ' ', b, d) && SameButCase(c, d)
  }

  /** LOWER(TRIM(name)) identifies exactly the names that differ in case and surrounding blanks alone. */
  lemma SameNameMeans(a: string, b: string)
    ensures Lower(SqlTrim(a)) == Lower(SqlTrim(b)) <==> SameName(a, b)
  {
    hide IsCore, Lower, SameButCase;
    SqlTrimMeans(a, SqlTrim(a));
    SqlTrimMeans(b, SqlTrim(b));
    LowerMeans(SqlTrim(a), SqlTrim(b));
    if c, d :| IsCore(x => x == ' ', a, c) && IsCore(x => x == ' ', b, d) && SameButCase(c, d) {
      SqlTrimMeans(a, c);
      SqlTrimMeans(b, d);
    }
  }

  lemma SqlTrimMeans(s: string, core: string)
    ensures core == SqlTrim(s) <==> IsCore(x => x == ' ', s, core)
  {
    TrimMeans(IsBlank, s, core);
    SameCore(IsBlank, x => x == ' ', s, core);
  }

  // ---------- substrings ----------

  predicate Contains(s: string, sub: string) {
    exists k :: 0 <= k <= |s| && sub <= s[k..]
  }

  // ---------- lists packed with "|" ----------

  function Join(ss: seq<string>): string {
    if ss == [] then "" else if |ss| == 1 then ss[0] else ss[0] + "|" + Join(ss[1..])
  }

  /** strings.Split(s, "|") */
  function Split(s: string): (r: seq<string>)
    ensures r != [] && forall k :: 0 <= k < |r| ==> '|' !in r[k]
  {
    if s == "" then [""]
    else
      var r := Split(s[1..]);
      if s[0] == '|' then [""] + r else [[s[0]] + r[0]] + r[1..]
  }

  lemma {:induction false} SplitHead(a: string, t: string)
    requires '|' !in a
    ensures Split(a + "|" + t) == [a] + Split(t)
    ensures Split(a) == [a]
  {
    if a == "" {
      assert a + "|" + t == "|" + t;
      assert ("|" + t)[1..] == t;
    } else {
      SplitHead(a[1..], t);
      assert (a + "|" + t)[1..] == a[1..] + "|" + t;
      assert a == [a[0]] + a[1..];
    }
  }

  /** Packing and splitting is a round trip exactly for non-empty lists of "|"-free strings. */
  lemma {:induction false} SplitJoin(ss: seq<string>)
    ensures Split(Join(ss)) == ss <==> ss != [] && forall k :: 0 <= k < |ss| ==> '|' !in ss[k]
  {
    if ss != [] && forall k :: 0 <= k < |ss| ==> '|' !in ss[k] {
      if |ss| == 1 {
        SplitHead(ss[0], "");
      } else {
        SplitJoin(ss[1..]);
        SplitHead(ss[0], Join(ss[1..]));
        assert ss == [ss[0]] + ss[1..];
      }
    }
  }

  /** What one more character in front does to a split. */
  function Prepend(c: char, parts: seq<string>): seq<string>
    requires parts != []
  {
    if c == '|' then [""] + parts else [[c] + parts[0]] + parts[1..]
  }

  lemma SplitCons(s: string)
    requires s != ""
    ensures Split(s) == Prepend(s[0], Split(s[1..]))
  {
  }

  lemma PrependConcat(c: char, r: seq<string>, t: seq<string>)
    requires r != []
    ensures Prepend(c, r + t) == Prepend(c, r) + t
  {
    if c == '|' {
      ConcatAssociative([""], r, t);
    } else {
      assert (r + t)[1..] == r[1..] + t;
      ConcatAssociative([[c] + r[0]], r[1..], t);
    }
  }

  lemma {:induction false} SplitConcat(a: string, t: string)
    ensures Split(a + "|" + t) == Split(a) + Split(t)
  {
    hide Split, Prepend;
    var s := a + "|" + t;
    SplitCons(s);
    if a == "" {
      assert s[1..] == t;
      SplitBar(t);
    } else {
      SplitConcat(a[1..], t);
      assert s[1..] == a[1..] + "|" + t;
      SplitCons(a);
      PrependConcat(a[0], Split(a[1..]), Split(t));
    }
  }

  lemma SplitBar(t: string)
    ensures Prepend('|', Split(t)) == Split("") + Split(t)
  {
  }

  ghost predicate IsPartOf(part: string, ss: seq<string>) {
    exists k :: 0 <= k < |ss| && part in Split(ss[k])
  }

  lemma PartOfCons(part: string, ss: seq<string>)
    requires ss != []
    ensures IsPartOf(part, ss) <==> part in Split(ss[0]) || IsPartOf(part, ss[1..])
  {
    if k :| 0 <= k < |ss| && part in Split(ss[k]) {
      assert k > 0 ==> ss[1..][k - 1] == ss[k];
    }
    if k :| 0 <= k < |ss[1..]| && part in Split(ss[1..][k]) {
      assert ss[k + 1] == ss[1..][k];
    }
  }

  /** The parts of a packed list are the parts of its members, whatever they contain. */
  lemma {:induction false} SplitJoinParts(ss: seq<string>, part: string)
    requires ss != []
    ensures part in Split(Join(ss)) <==> IsPartOf(part, ss)
  {
    hide Split, IsPartOf;
    PartOfCons(part, ss);
    if |ss| == 1 {
      assert ss[1..] == [];
      NoParts(part);
    } else {
      SplitConcat(ss[0], Join(ss[1..]));
      SplitJoinParts(ss[1..], part);
    }
  }

  lemma NoParts(part: string)
    ensures !IsPartOf(part, [])
  {
  }

  /** A packed tag list as the program reads it back: the empty string means no tags. */
  function Unpack(packed: string): seq<string> {
    if packed == "" then [] else Split(packed)
  }

  lemma {:induction false} JoinEmpty(ss: seq<string>)
    requires Join(ss) == ""
    ensures ss == [] || ss == [""]
  {
  }

  /** Tag lists survive packing exactly when no name holds "|" and the list is not one empty name. */
  lemma UnpackJoin(ss: seq<string>)
    ensures Unpack(Join(ss)) == ss <==> ss != [""] && forall k :: 0 <= k < |ss| ==> '|' !in ss[k]
  {
    SplitJoin(ss);
    if Join(ss) == "" {
      JoinEmpty(ss);
    }
  }
}
