/**
 * The Python string operations the calendar code relies on, on `seq<char>`:
 * case-insensitive substring search (`re.search(p, s, re.IGNORECASE)` for a pattern of
 * plain letters), `str.capitalize`, `sorted` on strings, `str.join` and `str.split(sep)`.
 * Case is folded for ASCII letters only.
 */
module Text {

  /** ASCII lower case; every other character is unchanged. */
  function Lower(c: char): char {
    if 'A' <= c <= 'Z' then (c as int + 32) as char else c
  }

  /** ASCII upper case; every other character is unchanged. */
  function Upper(c: char): char {
    if 'a' <= c <= 'z' then (c as int - 32) as char else c
  }

  /** `pat` occurs at position `i` of `text`, ignoring case. */
  predicate MatchesAt(text: string, pat: string, i: int) {
    0 <= i && i + |pat| <= |text| && forall j :: 0 <= j < |pat| ==> Lower(text[i + j]) == Lower(pat[j])
  }

  /** `re.search(pat, text, re.IGNORECASE)` finds a match. */
  predicate Occurs(text: string, pat: string) {
    exists i :: 0 <= i <= |text| - |pat| && MatchesAt(text, pat, i)
  }

  /** `str.capitalize`: the first character in upper case, the rest in lower case. */
  function Capitalize(s: string): string {
    if s == [] then [] else [Upper(s[0])] + seq(|s| - 1, i requires 0 <= i < |s| - 1 => Lower(s[i + 1]))
  }

  /** Capitalizing keeps the length and changes nothing but the case of letters. */
  lemma CapitalizeCaseOnly(s: string)
    ensures |Capitalize(s)| == |s|
    ensures forall i :: 0 <= i < |s| ==> Lower(Capitalize(s)[i]) == Lower(s[i])
  {
  }

  /** `[f(x) for x in s]`. */
  function Map<T, U>(f: T -> U, s: seq<T>): (r: seq<U>)
    ensures |r| == |s|
  {
    seq(|s|, i requires 0 <= i < |s| => f(s[i]))
  }

  /** `[ta.capitalize() for ta in tas]`. */
  function Caps(tas: seq<string>): (r: seq<string>)
    ensures |r| == |tas|
  {
    Map(Capitalize, tas)
  }

  /** Python's `a <= b` on strings: lexicographic by code point, a prefix first. */
  predicate Below(a: string, b: string) {
    if a == [] then true
    else if b == [] then false
    else if a[0] != b[0] then a[0] < b[0]
    else Below(a[1..], b[1..])
  }

  lemma {:induction false} BelowTotal(a: string, b: string)
    ensures Below(a, b) || Below(b, a)
  {
    if a != [] && b != [] && a[0] == b[0] {
      BelowTotal(a[1..], b[1..]);
    }
  }

  lemma {:induction false} BelowAntisymmetric(a: string, b: string)
    requires Below(a, b) && Below(b, a)
    ensures a == b
  {
    if a != [] && b != [] {
      BelowAntisymmetric(a[1..], b[1..]);
      assert a == [a[0]] + a[1..] && b == [b[0]] + b[1..];
    }
  }

  lemma {:induction false} BelowTransitive(a: string, b: string, c: string)
    requires Below(a, b) && Below(b, c)
    ensures Below(a, c)
  {
    if a != [] && b != [] && c != [] && a[0] == b[0] && b[0] == c[0] {
      BelowTransitive(a[1..], b[1..], c[1..]);
    }
  }

  lemma {:induction false} BelowReflexive(a: string)
    ensures Below(a, a)
  {
    if a != [] {
      BelowReflexive(a[1..]);
    }
  }

  /** In non-decreasing order: each name is at most the next. */
  predicate Ordered(s: seq<string>) {
    forall i :: 0 < i < |s| ==> Below(s[i - 1], s[i])
  }

  lemma OrderedTail(s: seq<string>)
    requires Ordered(s) && s != []
    ensures Ordered(s[1..])
  {
    var t := s[1..];
    forall i | 0 < i < |t| ensures Below(t[i - 1], t[i]) {
      assert t[i - 1] == s[i] && t[i] == s[i + 1];
    }
  }

  /** The first name of an ordered sequence is at most every name in it. */
  lemma {:induction false} OrderedFirst(s: seq<string>, k: nat)
    requires Ordered(s) && k < |s|
    ensures Below(s[0], s[k])
  {
    if k == 0 {
      BelowReflexive(s[0]);
    } else {
      OrderedFirst(s, k - 1);
      BelowTransitive(s[0], s[k - 1], s[k]);
    }
  }

  /** Insert `x` before the first element it is at most. */
  function Insert(x: string, s: seq<string>): (r: seq<string>)
    ensures |r| == |s| + 1
  {
    if s == [] then [x]
    else if Below(x, s[0]) then [x] + s
    else [s[0]] + Insert(x, s[1..])
  }

  lemma {:induction false} InsertPermutation(x: string, s: seq<string>)
    ensures multiset(Insert(x, s)) == multiset(s) + multiset{x}
  {
    if s != [] {
      assert s == [s[0]] + s[1..];
      if !Below(x, s[0]) {
        InsertPermutation(x, s[1..]);
      }
    }
  }

  lemma {:induction false} InsertOrdered(x: string, s: seq<string>)
    requires Ordered(s)
    ensures Ordered(Insert(x, s))
    ensures Insert(x, s)[0] == x || Insert(x, s)[0] == s[0]
  {
    if s != [] && !Below(x, s[0]) {
      var t := s[1..];
      OrderedTail(s);
      InsertOrdered(x, t);
      BelowTotal(x, s[0]);
      var r := Insert(x, s);
      assert r == [s[0]] + Insert(x, t);
      assert Below(r[0], r[1]) by {
        if r[1] != x {
          assert r[1] == s[1];
        }
      }
      forall i | 1 < i < |r| ensures Below(r[i - 1], r[i]) {
        assert r[i - 1] == Insert(x, t)[i - 2] && r[i] == Insert(x, t)[i - 1];
      }
    }
  }

  /** `sorted(s)` on strings. */
  function Sort(s: seq<string>): (r: seq<string>)
    ensures |r| == |s|
  {
    if s == [] then [] else Insert(s[0], Sort(s[1..]))
  }

  /** `sorted` returns the same names, in order. */
  lemma {:induction false} SortFacts(s: seq<string>)
    ensures Ordered(Sort(s)) && multiset(Sort(s)) == multiset(s)
  {
    if s != [] {
      SortFacts(s[1..]);
      InsertPermutation(s[0], Sort(s[1..]));
      InsertOrdered(s[0], Sort(s[1..]));
      assert s == [s[0]] + s[1..];
    }
  }

  lemma MultisetCancel<T>(x: T, p: multiset<T>, q: multiset<T>)
    requires multiset{x} + p == multiset{x} + q
    ensures p == q
  {
    assert forall z :: p[z] == (multiset{x} + p)[z] - multiset{x}[z];
    assert forall z :: q[z] == (multiset{x} + q)[z] - multiset{x}[z];
  }

  /** There is only one ordered arrangement of a multiset of strings. */
  lemma {:induction false} OrderedUnique(a: seq<string>, b: seq<string>)
    requires Ordered(a) && Ordered(b) && multiset(a) == multiset(b)
    ensures a == b
  {
    if a == [] {
      assert |multiset(b)| == 0;
    } else {
      assert |b| == |multiset(b)| == |multiset(a)| == |a|;
      assert a[0] in multiset(b) && b[0] in multiset(a);
      var k :| 0 <= k < |b| && b[k] == a[0];
      var m :| 0 <= m < |a| && a[m] == b[0];
      OrderedFirst(b, k);
      OrderedFirst(a, m);
      BelowAntisymmetric(a[0], b[0]);
      var a', b' := a[1..], b[1..];
      assert a == [a[0]] + a' && b == [b[0]] + b';
      assert multiset(a) == multiset{a[0]} + multiset(a');
      assert multiset(b) == multiset{b[0]} + multiset(b');
      MultisetCancel(a[0], multiset(a'), multiset(b'));
      OrderedTail(a);
      OrderedTail(b);
      OrderedUnique(a', b');
    }
  }

  /** Sorting depends only on which names there are, not on their order. */
  lemma SortOrderFree(a: seq<string>, b: seq<string>)
    requires multiset(a) == multiset(b)
    ensures Sort(a) == Sort(b)
  {
    SortFacts(a);
    SortFacts(b);
    OrderedUnique(Sort(a), Sort(b));
  }

  /** Taking out the element at position k leaves the rest of the multiset. */
  lemma RemoveOne<T>(b: seq<T>, k: nat)
    requires k < |b|
    ensures multiset(b) == multiset{b[k]} + multiset(b[..k] + b[k + 1..])
  {
    assert b == b[..k] + [b[k]] + b[k + 1..];
  }

  /** A position of an element of the multiset. */
  lemma FindIn<T>(b: seq<T>, x: T) returns (k: nat)
    requires x in multiset(b)
    ensures k < |b| && b[k] == x
  {
    k :| 0 <= k < |b| && b[k] == x;
  }

  lemma MapConcat<T, U>(f: T -> U, a: seq<T>, b: seq<T>)
    ensures Map(f, a + b) == Map(f, a) + Map(f, b)
  {
  }

  /** The image of the element at position k, and the images of the rest. */
  lemma MapRemoveOne<T, U>(f: T -> U, b: seq<T>, k: nat)
    requires k < |b|
    ensures multiset(Map(f, b)) == multiset{f(b[k])} + multiset(Map(f, b[..k] + b[k + 1..]))
  {
    MapConcat(f, b[..k], b[k + 1..]);
    assert Map(f, b) == Map(f, b[..k]) + [f(b[k])] + Map(f, b[k + 1..]);
  }

  /** Mapping over a permutation gives a permutation of the images. */
  lemma {:induction false} MapPermutation<T, U>(f: T -> U, a: seq<T>, b: seq<T>)
    requires multiset(a) == multiset(b)
    ensures multiset(Map(f, a)) == multiset(Map(f, b))
  {
    if a == [] {
      assert |multiset(b)| == 0;
      assert b == [];
    } else {
      var k := FindIn(b, a[0]);
      var rest := b[..k] + b[k + 1..];
      RemoveOne(b, k);
      assert a == [a[0]] + a[1..];
      MultisetCancel(a[0], multiset(a[1..]), multiset(rest));
      MapPermutation(f, a[1..], rest);
      MapRemoveOne(f, b, k);
      assert Map(f, a) == [f(a[0])] + Map(f, a[1..]);
    }
  }

  /** `sep.join(parts)`. */
  function Join(parts: seq<string>, sep: string): string {
    if parts == [] then []
    else if |parts| == 1 then parts[0]
    else parts[0] + sep + Join(parts[1..], sep)
  }

  /** `s.split(c)`: the pieces between the occurrences of `c`, at least one. */
  function Split(s: string, c: char): (parts: seq<string>)
    ensures |parts| >= 1
  {
    if s == [] then [[]]
    else
      var rest := Split(s[1..], c);
      if s[0] == c then [[]] + rest else [[s[0]] + rest[0]] + rest[1..]
  }

  /** Joining the pieces with the separator gives the string back. */
  lemma {:induction false} SplitJoin(s: string, c: char)
    ensures Join(Split(s, c), [c]) == s
  {
    if s != [] {
      SplitJoin(s[1..], c);
      var rest := Split(s[1..], c);
      if s[0] == c {
        assert Split(s, c)[1..] == rest;
        assert s == [c] + s[1..];
      } else if |rest| == 1 {
        assert s == [s[0]] + s[1..];
      } else {
        var parts := Split(s, c);
        assert parts[1..] == rest[1..];
        assert Join(rest, [c]) == rest[0] + [c] + Join(rest[1..], [c]);
        assert s == [s[0]] + s[1..];
      }
    }
  }

  /** No piece holds the separator, and there is one piece more than separators. */
  lemma {:induction false} SplitPieces(s: string, c: char)
    ensures forall p :: p in Split(s, c) ==> c !in p
    ensures |Split(s, c)| == multiset(s)[c] + 1
  {
    if s != [] {
      SplitPieces(s[1..], c);
      assert s == [s[0]] + s[1..];
      var rest := Split(s[1..], c);
      if s[0] != c {
        assert forall p :: p in rest[1..] ==> p in rest;
        assert c !in rest[0];
      }
    }
  }
}
