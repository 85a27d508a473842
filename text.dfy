/** Strings as the pages use them: ASCII case mapping (standing in for
    `toLowerCase`/`toUpperCase`), substring containment (`includes`),
    `split` on one character and its inverse, the "extension" taken with
    `split('.').pop()`, and the decimal rendering of a natural number. */
module Text {

  function LowerChar(c: char): char {
    if 'A' <= c <= 'Z' then (c as int + 32) as char else c
  }

  function UpperChar(c: char): char {
    if 'a' <= c <= 'z' then (c as int - 32) as char else c
  }

  /** `s.toLowerCase()` restricted to ASCII letters. */
  function Lower(s: string): (r: string)
    ensures |r| == |s|
    ensures forall i :: 0 <= i < |s| ==> r[i] == LowerChar(s[i])
  {
    if s == [] then [] else [LowerChar(s[0])] + Lower(s[1..])
  }

  /** `s.toUpperCase()` restricted to ASCII letters. The pages never
      upper-case a whole string (the role label upper-cases one character,
      with `UpperChar`); `Upper` is here to state, in `CaseIrrelevant`, that
      the case of a searched field does not matter. */
  function Upper(s: string): (r: string)
    ensures |r| == |s|
    ensures forall i :: 0 <= i < |s| ==> r[i] == UpperChar(s[i])
  {
    if s == [] then [] else [UpperChar(s[0])] + Upper(s[1..])
  }

  predicate IsPrefix(n: string, h: string) {
    |n| <= |h| && h[..|n|] == n
  }

  /** `h.includes(n)`: `n` occurs somewhere in `h`. */
  predicate Contains(h: string, n: string)
    ensures n == [] ==> Contains(h, n)
    ensures Contains(h, n) ==> |n| <= |h|
    decreases |h|
  {
    IsPrefix(n, h) || (h != [] && Contains(h[1..], n))
  }

  /** `n` occurs in `h` starting at index `i`. */
  predicate OccursAt(h: string, n: string, i: int) {
    0 <= i && i + |n| <= |h| && h[i..i + |n|] == n
  }

  /** The recursive search agrees with the positional definition of a
      substring, in both directions. */
  lemma {:induction false} ContainsIffOccurs(h: string, n: string)
    ensures Contains(h, n) <==> exists i :: OccursAt(h, n, i)
    decreases |h|
  {
    if IsPrefix(n, h) {
      assert OccursAt(h, n, 0);
    } else if h != [] {
      ContainsIffOccurs(h[1..], n);
      if Contains(h[1..], n) {
        var i :| OccursAt(h[1..], n, i);
        assert h[1..][i..i + |n|] == h[i + 1..i + 1 + |n|];
        assert OccursAt(h, n, i + 1);
      }
      if exists i :: OccursAt(h, n, i) {
        var i :| OccursAt(h, n, i);
        if i == 0 {
          assert false;
        }
        assert h[1..][i - 1..i - 1 + |n|] == h[i..i + |n|];
        assert OccursAt(h[1..], n, i - 1);
      }
    }
  }

  /** The empty string occurs in every string, so an empty search term
      matches everything. */
  lemma EmptyOccursEverywhere(h: string)
    ensures Contains(h, [])
  {
  }

  /** `h.toLowerCase().includes(n.toLowerCase())`. */
  predicate ContainsIgnoringCase(h: string, n: string)
    ensures n == [] ==> ContainsIgnoringCase(h, n)
    ensures ContainsIgnoringCase(h, n) ==> |n| <= |h|
  {
    Contains(Lower(h), Lower(n))
  }

  /** Lower-casing twice is lower-casing once. */
  lemma LowerIdempotent(s: string)
    ensures Lower(Lower(s)) == Lower(s)
  {
    assert forall i :: 0 <= i < |s| ==> LowerChar(LowerChar(s[i])) == LowerChar(s[i]);
  }

  /** Lower-casing forgets any earlier upper-casing. */
  lemma LowerOfUpper(s: string)
    ensures Lower(Upper(s)) == Lower(s)
  {
    assert forall i :: 0 <= i < |s| ==> LowerChar(UpperChar(s[i])) == LowerChar(s[i]);
  }

  /** Case-insensitive containment does not depend on the case of either
      side: the search term and the searched field may be written in any
      mixture of upper and lower case. */
  lemma CaseIrrelevant(h: string, n: string)
    ensures ContainsIgnoringCase(h, Lower(n)) == ContainsIgnoringCase(h, n)
    ensures ContainsIgnoringCase(h, Upper(n)) == ContainsIgnoringCase(h, n)
    ensures ContainsIgnoringCase(Upper(h), n) == ContainsIgnoringCase(h, n)
  {
    LowerIdempotent(n);
    LowerOfUpper(n);
    LowerOfUpper(h);
  }

  /** `s.split(sep)`: the pieces between occurrences of `sep`; one piece
      when `sep` does not occur (so `"".split(sep)` is `[""]`). */
  function Split(s: string, sep: char): (parts: seq<string>)
    ensures |parts| >= 1
    ensures forall k :: 0 <= k < |parts| ==> sep !in parts[k]
    decreases |s|
  {
    if s == [] then [[]]
    else
      var init := Split(s[..|s| - 1], sep);
      var x := s[|s| - 1];
      if x == sep then init + [[]]
      else init[..|init| - 1] + [init[|init| - 1] + [x]]
  }

  /** `parts.join(sep)`. */
  function Join(parts: seq<string>, sep: char): string
    requires |parts| >= 1
  {
    if |parts| == 1 then parts[0]
    else Join(parts[..|parts| - 1], sep) + [sep] + parts[|parts| - 1]
  }

  /** Joining after one more piece adds the separator and that piece. */
  lemma JoinSnoc(parts: seq<string>, piece: string, sep: char)
    requires |parts| >= 1
    ensures Join(parts + [piece], sep) == Join(parts, sep) + [sep] + piece
  {
    assert (parts + [piece])[..|parts|] == parts;
  }

  /** Growing the last piece grows the joined string at its end. */
  lemma JoinGrowLast(parts: seq<string>, x: char, sep: char)
    requires |parts| >= 1
    ensures Join(parts[..|parts| - 1] + [parts[|parts| - 1] + [x]], sep) == Join(parts, sep) + [x]
  {
    var init := parts[..|parts| - 1];
    if |parts| > 1 {
      JoinSnoc(init, parts[|parts| - 1] + [x], sep);
      assert init + [parts[|parts| - 1]] == parts;
      JoinSnoc(init, parts[|parts| - 1], sep);
    }
  }

  /** Joining the pieces of a split gives back the original string. */
  lemma {:induction false} JoinSplit(s: string, sep: char)
    ensures Join(Split(s, sep), sep) == s
    decreases |s|
  {
    if s != [] {
      var s', x := s[..|s| - 1], s[|s| - 1];
      var p := Split(s', sep);
      JoinSplit(s', sep);
      assert s == s' + [x];
      if x == sep {
        JoinSnoc(p, [], sep);
      } else {
        JoinGrowLast(p, x, sep);
      }
    }
  }

  /** Appending a character other than `sep` extends the last piece. */
  lemma SplitAppendChar(u: string, x: char, sep: char)
    requires x != sep
    ensures var q := Split(u, sep);
            Split(u + [x], sep) == q[..|q| - 1] + [q[|q| - 1] + [x]]
  {
    assert (u + [x])[..|u|] == u;
  }

  /** Taking off the last piece and putting it back changes nothing. */
  lemma SplitAppendNothing(s: string, sep: char)
    ensures var p := Split(s, sep);
            Split(s + [], sep) == p[..|p| - 1] + [p[|p| - 1] + []]
  {
    var p := Split(s, sep);
    assert s + [] == s;
    assert p[|p| - 1] + [] == p[|p| - 1];
    assert p[..|p| - 1] + [p[|p| - 1]] == p;
  }

  /** List algebra behind `SplitAppendStep`: growing the last piece twice
      is growing it once by both. */
  lemma GrowLastTwice(q: seq<string>, p: seq<string>, t': string, x: char)
    requires |p| >= 1 && q == p[..|p| - 1] + [p[|p| - 1] + t']
    ensures q[..|q| - 1] + [q[|q| - 1] + [x]] == p[..|p| - 1] + [p[|p| - 1] + (t' + [x])]
  {
    assert q[..|q| - 1] == p[..|p| - 1];
    assert q[|q| - 1] + [x] == p[|p| - 1] + (t' + [x]);
  }

  /** One more character other than `sep` after text whose last piece is
      `p`'s last piece grown by `t'` grows that piece further. */
  lemma SplitAppendStep(u: string, p: seq<string>, t': string, x: char, sep: char)
    requires x != sep && |p| >= 1
    requires Split(u, sep) == p[..|p| - 1] + [p[|p| - 1] + t']
    ensures Split(u + [x], sep) == p[..|p| - 1] + [p[|p| - 1] + (t' + [x])]
  {
    SplitAppendChar(u, x, sep);
    GrowLastTwice(Split(u, sep), p, t', x);
  }

  /** Appending text free of `sep` extends the last piece only. */
  lemma {:induction false} SplitAppendPlain(s: string, t: string, sep: char)
    requires sep !in t
    ensures var p := Split(s, sep);
            Split(s + t, sep) == p[..|p| - 1] + [p[|p| - 1] + t]
    decreases |t|
  {
    if t == [] {
      SplitAppendNothing(s, sep);
    } else {
      var t', x := t[..|t| - 1], t[|t| - 1];
      assert t == t' + [x];
      var u := s + t';
      SplitAppendPlain(s, t', sep);
      SplitAppendStep(u, Split(s, sep), t', x, sep);
      assert s + t == u + [x];
    }
  }

  /** A trailing separator starts a new, empty piece. */
  lemma SplitAfterSeparator(s: string, sep: char)
    ensures Split(s + [sep], sep) == Split(s, sep) + [[]]
  {
    assert (s + [sep])[..|s|] == s;
  }

  /** Splitting a join of `sep`-free pieces gives back the pieces. */
  lemma {:induction false} SplitJoin(parts: seq<string>, sep: char)
    requires |parts| >= 1
    requires forall k :: 0 <= k < |parts| ==> sep !in parts[k]
    ensures Split(Join(parts, sep), sep) == parts
    decreases |parts|
  {
    var last := parts[|parts| - 1];
    if |parts| == 1 {
      SplitAppendPlain([], last, sep);
      assert [] + last == last;
    } else {
      var init := parts[..|parts| - 1];
      assert init + [last] == parts;
      assert Join(parts, sep) == Join(init, sep) + [sep] + last;
      SplitJoin(init, sep);
      SplitNextPiece(Join(init, sep), last, sep);
    }
  }

  /** After a separator, a `sep`-free piece becomes a piece of its own. */
  lemma SplitNextPiece(s: string, piece: string, sep: char)
    requires sep !in piece
    ensures Split(s + [sep] + piece, sep) == Split(s, sep) + [piece]
  {
    SplitAfterSeparator(s, sep);
    SplitAppendPlain(s + [sep], piece, sep);
    var q := Split(s, sep) + [[]];
    assert q[..|q| - 1] == Split(s, sep);
    assert q[|q| - 1] + piece == piece;
  }

  function Last<T>(s: seq<T>): T
    requires |s| >= 1
  {
    s[|s| - 1]
  }

  /** `name.split('.').pop()`: the text after the last '.', or the whole
      name when it has no '.' (and "" when the name ends with '.'). */
  function Extension(name: string): (ext: string)
    ensures '.' !in ext
    ensures |ext| <= |name| && name[|name| - |ext|..] == ext
    ensures |ext| == |name| || name[|name| - |ext| - 1] == '.'
    ensures '.' !in name ==> ext == name
  {
    LastPieceIsLastSegment(name, '.');
    Last(Split(name, '.'))
  }

  /** The last piece of a split is the longest suffix free of `sep`. */
  lemma {:induction false} LastPieceIsLastSegment(s: string, sep: char)
    ensures var e := Last(Split(s, sep));
            && |e| <= |s| && s[|s| - |e|..] == e
            && (|e| == |s| || s[|s| - |e| - 1] == sep)
    decreases |s|
  {
    if s != [] {
      var s', x := s[..|s| - 1], s[|s| - 1];
      assert s == s' + [x];
      if x == sep {
        SplitAfterSeparator(s', sep);
      } else {
        LastPieceIsLastSegment(s', sep);
        var e' := Last(Split(s', sep));
        SplitAppendChar(s', x, sep);
        assert Last(Split(s, sep)) == e' + [x];
        SuffixGrows(s', e', x, sep);
      }
    }
  }

  /** A suffix that follows `sep` (or starts the string) still does after
      one more character is appended to both. */
  lemma SuffixGrows(s: string, e: string, x: char, sep: char)
    requires |e| <= |s| && s[|s| - |e|..] == e
    requires |e| == |s| || s[|s| - |e| - 1] == sep
    ensures var t, f := s + [x], e + [x];
            && |f| <= |t| && t[|t| - |f|..] == f
            && (|f| == |t| || t[|t| - |f| - 1] == sep)
  {
    var t := s + [x];
    assert t[|t| - |e| - 1..] == s[|s| - |e|..] + [x];
  }

  /** When `sep`-free text `e` follows the last `sep`, `e` is the last piece. */
  lemma ExtensionAfterSeparator(prefix: string, e: string)
    requires '.' !in e
    ensures Extension(prefix + ['.'] + e) == e
  {
    var j := prefix + ['.'];
    assert j[..|j| - 1] == prefix;
    SplitAppendPlain(j, e, '.');
  }

  function DigitChar(d: nat): char
    requires d < 10
  {
    ('0' as int + d) as char
  }

  predicate IsDigitChar(c: char) {
    '0' <= c <= '9'
  }

  /** The decimal rendering of `n`, as a template literal prints `Date.now()`. */
  function Decimal(n: nat): (s: string)
    ensures |s| >= 1
    ensures forall i :: 0 <= i < |s| ==> IsDigitChar(s[i])
    ensures n < 10 ==> |s| == 1
    ensures n > 0 ==> s[0] != '0'
    ensures |s| == 1 || s[0] != '0'
  {
    if n < 10 then [DigitChar(n)] else Decimal(n / 10) + [DigitChar(n % 10)]
  }

  /** Reads a string of decimal digits back as a number. */
  function DecimalValue(s: string): nat {
    if s == [] then 0
    else
      var c := s[|s| - 1];
      var d := if IsDigitChar(c) then c as int - '0' as int else 0;
      DecimalValue(s[..|s| - 1]) * 10 + d
  }

  /** The decimal rendering loses nothing: it reads back as the number. */
  lemma {:induction false} DecimalRoundTrip(n: nat)
    ensures DecimalValue(Decimal(n)) == n
  {
    if n >= 10 {
      DecimalRoundTrip(n / 10);
      var s := Decimal(n);
      assert s[..|s| - 1] == Decimal(n / 10);
    }
  }

  /** `s.charAt(0).toUpperCase() + s.slice(1)`. */
  function Capitalize(s: string): (r: string)
    ensures |r| == |s|
    ensures s != [] ==> r[0] == UpperChar(s[0]) && r[1..] == s[1..]
  {
    if s == [] then [] else [UpperChar(s[0])] + s[1..]
  }
}
