/** Strings as Go handles them: white space, trimming, ASCII case, numbers, byte order and sorting. */
module Text {
  import opened Wrappers

  /** unicode.IsSpace. */
  predicate IsSpace(c: char) {
    c == '\t' || c == '\n' || c == '\U{0B}' || c == '\U{0C}' || c == '\r' || c == ' '
    || c == '\U{85}' || c == '\U{A0}' || c == '\U{1680}' || '\U{2000}' <= c <= '\U{200A}'
    || c == '\U{2028}' || c == '\U{2029}' || c == '\U{202F}' || c == '\U{205F}' || c == '\U{3000}'
  }

  /** The characters with the Unicode property White_Space, by code point. */
  lemma WhiteSpaceIs(c: char)
    ensures IsSpace(c) <==> var n := c as int;
              || 9 <= n <= 13 || n == 32 || n == 133 || n == 160 || n == 5760 || 8192 <= n <= 8202
              || n == 8232 || n == 8233 || n == 8239 || n == 8287 || n == 12288
  {
  }

  function TrimLeft(s: string, drop: char -> bool): string
    decreases |s|
  {
    if s != [] && drop(s[0]) then TrimLeft(s[1..], drop) else s
  }

  function TrimRight(s: string, drop: char -> bool): string
    decreases |s|
  {
    if s != [] && drop(s[|s| - 1]) then TrimRight(s[..|s| - 1], drop) else s
  }

  function Trim(s: string, drop: char -> bool): string {
    TrimRight(TrimLeft(s, drop), drop)
  }

  function TrimSpace(s: string): string {
    Trim(s, IsSpace)
  }

  /** No character to drop at either end. */
  predicate Tight(s: string, drop: char -> bool) {
    s == [] || (!drop(s[0]) && !drop(s[|s| - 1]))
  }

  lemma {:induction false} TrimRightResult(s: string, drop: char -> bool)
    ensures TrimRight(s, drop) <= s
    ensures var r := TrimRight(s, drop); r != [] ==> !drop(r[|r| - 1])
    decreases |s|
  {
    if s != [] && drop(s[|s| - 1]) {
      TrimRightResult(s[..|s| - 1], drop);
    }
  }

  lemma {:induction false} TrimLeftResult(s: string, drop: char -> bool)
    ensures var r := TrimLeft(s, drop); |r| <= |s| && (r != [] ==> !drop(r[0])) && r == s[|s| - |r|..]
    decreases |s|
  {
    if s != [] && drop(s[0]) {
      TrimLeftResult(s[1..], drop);
    }
  }

  lemma TrimIsTight(s: string, drop: char -> bool)
    ensures Tight(Trim(s, drop), drop)
    ensures |Trim(s, drop)| <= |s|
  {
    TrimLeftResult(s, drop);
    TrimRightResult(TrimLeft(s, drop), drop);
  }

  lemma {:induction false} TrimLeftParts(s: string, drop: char -> bool) returns (a: string)
    ensures s == a + TrimLeft(s, drop) && forall i :: 0 <= i < |a| ==> drop(a[i])
    decreases |s|
  {
    if s != [] && drop(s[0]) {
      var rest := TrimLeftParts(s[1..], drop);
      a := [s[0]] + rest;
      assert s == [s[0]] + s[1..];
    } else {
      a := [];
    }
  }

  lemma {:induction false} TrimRightParts(s: string, drop: char -> bool) returns (b: string)
    ensures s == TrimRight(s, drop) + b && forall i :: 0 <= i < |b| ==> drop(b[i])
    decreases |s|
  {
    if s != [] && drop(s[|s| - 1]) {
      var rest := TrimRightParts(s[..|s| - 1], drop);
      b := rest + [s[|s| - 1]];
      assert s == s[..|s| - 1] + [s[|s| - 1]];
    } else {
      b := [];
    }
  }

  /** Trimming takes characters to drop off both ends, all of them, and nothing else. */
  lemma TrimExactly(s: string, drop: char -> bool) returns (a: string, b: string)
    ensures s == a + Trim(s, drop) + b
    ensures forall i :: 0 <= i < |a| ==> drop(a[i])
    ensures forall i :: 0 <= i < |b| ==> drop(b[i])
    ensures Tight(Trim(s, drop), drop)
    ensures Trim(s, drop) == "" <==> forall i :: 0 <= i < |s| ==> drop(s[i])
  {
    a := TrimLeftParts(s, drop);
    b := TrimRightParts(TrimLeft(s, drop), drop);
    TrimIsTight(s, drop);
    var t := Trim(s, drop);
    assert s == a + (t + b);
    if t != "" {
      assert s[|a|] == t[0];
    }
  }

  /** Trimming changes nothing exactly when there is nothing to drop at the ends. */
  lemma TrimFixed(s: string, drop: char -> bool)
    ensures Trim(s, drop) == s <==> Tight(s, drop)
  {
    TrimIsTight(s, drop);
  }

  lemma {:induction false} TrimLeftSkips(lead: string, s: string, drop: char -> bool)
    requires forall i :: 0 <= i < |lead| ==> drop(lead[i])
    ensures TrimLeft(lead + s, drop) == TrimLeft(s, drop)
    decreases |lead|
  {
    if lead == [] {
      assert lead + s == s;
    } else {
      assert (lead + s)[0] == lead[0] && (lead + s)[1..] == lead[1..] + s;
      TrimLeftSkips(lead[1..], s, drop);
    }
  }

  lemma {:induction false} TrimRightAppend(a: string, b: string, drop: char -> bool)
    ensures TrimRight(a + b, drop) == if TrimRight(b, drop) == [] then TrimRight(a, drop) else a + TrimRight(b, drop)
    decreases |b|
  {
    if b == [] {
      assert a + b == a;
    } else {
      var s := a + b;
      assert s[|s| - 1] == b[|b| - 1] && s[..|s| - 1] == a + b[..|b| - 1];
      if drop(b[|b| - 1]) {
        TrimRightAppend(a, b[..|b| - 1], drop);
      }
    }
  }

  /** The two ends can be trimmed in either order. */
  lemma {:induction false} TrimEndsCommute(s: string, drop: char -> bool)
    ensures TrimLeft(TrimRight(s, drop), drop) == TrimRight(TrimLeft(s, drop), drop)
    decreases |s|
  {
    if s != [] && drop(s[0]) {
      var t := s[1..];
      TrimEndsCommute(t, drop);
      assert s == [s[0]] + t;
      TrimRightAppend([s[0]], t, drop);
      assert [s[0]][..0] == [];
      if TrimRight(t, drop) != [] {
        var r := [s[0]] + TrimRight(t, drop);
        assert r[1..] == TrimRight(t, drop);
      }
    } else if s != [] {
      TrimRightResult(s, drop);
      TrimRightKeepsFirst(s, drop);
    }
  }

  lemma {:induction false} TrimRightKeepsFirst(s: string, drop: char -> bool)
    requires s != [] && !drop(s[0])
    ensures var r := TrimRight(s, drop); r != [] && r[0] == s[0]
    decreases |s|
  {
    if drop(s[|s| - 1]) {
      TrimRightKeepsFirst(s[..|s| - 1], drop);
    }
  }

  lemma TrimOfTrimRight(s: string, drop: char -> bool)
    ensures Trim(TrimRight(s, drop), drop) == Trim(s, drop)
  {
    TrimEndsCommute(s, drop);
    TrimRightTwice(TrimLeft(s, drop), drop);
  }

  lemma {:induction false} TrimRightTwice(s: string, drop: char -> bool)
    ensures TrimRight(TrimRight(s, drop), drop) == TrimRight(s, drop)
    decreases |s|
  {
    TrimRightResult(s, drop);
  }

  function ToLowerChar(c: char): char {
    if 'A' <= c <= 'Z' then (c as int + 32) as char else c
  }

  /** strings.ToLower on ASCII letters; other characters stay. */
  /** The 26 capital letters go to the small ones, 32 places up in ASCII; nothing else moves. */
  lemma LowerExactly(c: char)
    ensures 65 <= c as int <= 90 ==> ToLowerChar(c) as int == c as int + 32
    ensures !(65 <= c as int <= 90) ==> ToLowerChar(c) == c
  {
  }

  function ToLower(s: string): (r: string)
    ensures |r| == |s|
  {
    seq(|s|, i requires 0 <= i < |s| => ToLowerChar(s[i]))
  }

  lemma ToLowerIdempotent(s: string)
    ensures ToLower(ToLower(s)) == ToLower(s)
  {
  }

  // ------------------------------------------------------------- extensions

  /** filepath.Ext of a file's name: from the last dot on. */
  function Ext(name: string): string
    decreases |name|
  {
    if name == "" then ""
    else if Ext(name[1..]) != "" then Ext(name[1..])
    else if name[0] == '.' then name
    else ""
  }

  lemma {:induction false} NoDotNoExt(name: string)
    requires forall i :: 0 <= i < |name| ==> name[i] != '.'
    ensures Ext(name) == ""
    decreases |name|
  {
    if name != "" {
      NoDotNoExt(name[1..]);
    }
  }

  lemma {:induction false} ExtOf(stem: string, tail: string)
    requires forall i :: 0 <= i < |tail| ==> tail[i] != '.'
    ensures Ext(stem + ("." + tail)) == "." + tail
    decreases |stem|
  {
    var name := stem + ("." + tail);
    if stem == "" {
      assert name == "." + tail && name[1..] == tail;
      NoDotNoExt(tail);
    } else {
      assert name[1..] == stem[1..] + ("." + tail);
      ExtOf(stem[1..], tail);
    }
  }

  lemma {:induction false} ExtIsSuffix(name: string)
    ensures Ext(name) == "" || (Ext(name)[0] == '.' && forall i :: 1 <= i < |Ext(name)| ==> Ext(name)[i] != '.')
    ensures |Ext(name)| <= |name| && name[|name| - |Ext(name)|..] == Ext(name)
    ensures Ext(name) == "" ==> forall i :: 0 <= i < |name| ==> name[i] != '.'
    decreases |name|
  {
    if name != "" {
      ExtIsSuffix(name[1..]);
      if Ext(name[1..]) == "" {
        assert forall i :: 1 <= i < |name| ==> name[i] == name[1..][i - 1];
      }
    }
  }

  // ------------------------------------------------------------- bytes

  function CharBytes(c: char): nat {
    if c < '\U{80}' then 1 else if c < '\U{800}' then 2 else if c < '\U{10000}' then 3 else 4
  }

  /** UTF-8 has 7, 11 and 16 bits of a code point in one, two and three bytes (section 3 of RFC 3629). */
  lemma Utf8Widths(c: char)
    ensures 1 <= CharBytes(c) <= 4
    ensures CharBytes(c) <= 1 <==> c as int < 128
    ensures CharBytes(c) <= 2 <==> c as int < 2048
    ensures CharBytes(c) <= 3 <==> c as int < 65536
  {
  }

  /** How many bytes s has in UTF-8. */
  function Utf8Length(s: string): nat {
    if s == "" then 0 else CharBytes(s[0]) + Utf8Length(s[1..])
  }

  lemma {:induction false} Utf8Bound(s: string)
    ensures Utf8Length(s) <= 4 * |s|
    decreases |s|
  {
    if s != "" {
      Utf8Bound(s[1..]);
    }
  }

  // ------------------------------------------------------------- numbers

  predicate IsDigitChar(c: char) {
    '0' <= c <= '9'
  }

  function DigitChar(d: nat): (c: char)
    requires d < 10
    ensures IsDigitChar(c) && DigitOf(c) == d
  {
    ('0' as int + d) as char
  }

  function DigitOf(c: char): (d: nat)
    requires IsDigitChar(c)
  {
    c as int - '0' as int
  }

  /** `%d` of a non-negative number. */
  function Number(n: nat): (s: string)
    ensures s != "" && forall i :: 0 <= i < |s| ==> IsDigitChar(s[i])
  {
    if n < 10 then [DigitChar(n)] else Number(n / 10) + [DigitChar(n % 10)]
  }

  function NumberValue(s: string): nat
    requires forall i :: 0 <= i < |s| ==> IsDigitChar(s[i])
  {
    if s == "" then 0 else 10 * NumberValue(s[..|s| - 1]) + DigitOf(s[|s| - 1])
  }

  lemma {:induction false} NumberRoundTrip(n: nat)
    ensures NumberValue(Number(n)) == n
  {
    if n < 10 {
      assert Number(n)[..0] == "";
    } else {
      NumberRoundTrip(n / 10);
      assert Number(n)[..|Number(n)| - 1] == Number(n / 10);
    }
  }

  function DigitCount(s: string): (k: nat)
    ensures k <= |s| && forall i :: 0 <= i < k ==> IsDigitChar(s[i])
  {
    if s == "" || !IsDigitChar(s[0]) then 0 else 1 + DigitCount(s[1..])
  }

  /** The leading number of s and what follows it. */
  function ReadNumber(s: string): Option<(nat, string)> {
    var k := DigitCount(s);
    if k == 0 then None else Some((NumberValue(s[..k]), s[k..]))
  }

  lemma {:induction false} DigitCountOf(d: string, rest: string)
    requires forall i :: 0 <= i < |d| ==> IsDigitChar(d[i])
    requires rest != "" ==> !IsDigitChar(rest[0])
    ensures DigitCount(d + rest) == |d|
    decreases |d|
  {
    if d == "" {
      assert d + rest == rest;
    } else {
      assert (d + rest)[1..] == d[1..] + rest;
      DigitCountOf(d[1..], rest);
    }
  }

  lemma ReadNumberInverts(n: nat, rest: string)
    requires rest != "" ==> !IsDigitChar(rest[0])
    ensures ReadNumber(Number(n) + rest) == Some((n, rest))
  {
    var d := Number(n);
    DigitCountOf(d, rest);
    NumberRoundTrip(n);
    assert (d + rest)[..|d|] == d && (d + rest)[|d|..] == rest;
  }

  // ------------------------------------------------------------- order and sorting

  /** s comes before t or equals it. */
  predicate Leq(s: string, t: string)
    decreases |s|
  {
    if s == [] then true
    else if t == [] then false
    else if s[0] != t[0] then s[0] < t[0]
    else Leq(s[1..], t[1..])
  }

  lemma {:induction false} LeqTotal(s: string, t: string)
    ensures Leq(s, t) || Leq(t, s)
    decreases |s|
  {
    if s != [] && t != [] && s[0] == t[0] {
      LeqTotal(s[1..], t[1..]);
    }
  }

  lemma {:induction false} LeqTransitive(s: string, t: string, u: string)
    requires Leq(s, t) && Leq(t, u)
    ensures Leq(s, u)
    decreases |s|
  {
    if s != [] && s[0] == t[0] == u[0] {
      LeqTransitive(s[1..], t[1..], u[1..]);
    }
  }

  /** Byte order: a beginning comes first, otherwise the first difference decides. */
  lemma {:induction false} LeqExactly(s: string, t: string)
    ensures Leq(s, t) <==>
              || s <= t
              || exists i :: 0 <= i < |s| && i < |t| && s[..i] == t[..i] && s[i] < t[i]
    decreases |s|
  {
    if s != [] && t != [] && s[0] == t[0] {
      LeqExactly(s[1..], t[1..]);
      if s[1..] <= t[1..] {
        assert s <= t;
      }
      if i :| 0 <= i < |s[1..]| && i < |t[1..]| && s[1..][..i] == t[1..][..i] && s[1..][i] < t[1..][i] {
        assert s[..i + 1] == [s[0]] + s[1..][..i] == t[..i + 1];
        assert s[i + 1] < t[i + 1];
      }
      if i :| 0 <= i < |s| && i < |t| && s[..i] == t[..i] && s[i] < t[i] {
        assert i > 0;
        assert s[1..][..i - 1] == s[..i][1..] == t[1..][..i - 1];
        assert s[1..][i - 1] < t[1..][i - 1];
      }
      if s <= t {
        assert s[1..] <= t[1..];
      }
    } else if s != [] && t != [] {
      assert s[..0] == t[..0];
    }
  }

  /** Non-decreasing by key. */
  predicate SortedBy<T>(xs: seq<T>, key: T -> string) {
    forall i, k :: 0 <= i < k < |xs| ==> Leq(key(xs[i]), key(xs[k]))
  }

  /** x into its place among sorted elements. */
  function Insert<T>(x: T, xs: seq<T>, key: T -> string): seq<T>
    decreases |xs|
  {
    if xs == [] then [x]
    else if Leq(key(x), key(xs[0])) then [x] + xs
    else [xs[0]] + Insert(x, xs[1..], key)
  }

  function SortBy<T>(xs: seq<T>, key: T -> string): seq<T>
    decreases |xs|
  {
    if xs == [] then [] else Insert(xs[0], SortBy(xs[1..], key), key)
  }

  lemma {:induction false} InsertIsPermutation<T>(x: T, xs: seq<T>, key: T -> string)
    ensures multiset(Insert(x, xs, key)) == multiset(xs) + multiset{x}
    decreases |xs|
  {
    if xs != [] {
      assert xs == [xs[0]] + xs[1..];
      if !Leq(key(x), key(xs[0])) {
        InsertIsPermutation(x, xs[1..], key);
      }
    }
  }

  lemma {:induction false} InsertSorted<T>(x: T, xs: seq<T>, key: T -> string)
    requires SortedBy(xs, key)
    ensures SortedBy(Insert(x, xs, key), key)
    decreases |xs|
  {
    hide Leq;
    if xs != [] {
      if Leq(key(x), key(xs[0])) {
        forall k | 0 <= k < |xs| ensures Leq(key(x), key(xs[k])) {
          if k > 0 {
            LeqTransitive(key(x), key(xs[0]), key(xs[k]));
          }
        }
      } else {
        LeqTotal(key(x), key(xs[0]));
        InsertSorted(x, xs[1..], key);
        InsertIsPermutation(x, xs[1..], key);
        var rest := Insert(x, xs[1..], key);
        forall k | 0 <= k < |rest| ensures Leq(key(xs[0]), key(rest[k])) {
          assert rest[k] in multiset(rest);
          if rest[k] != x {
            assert rest[k] in xs[1..];
          }
        }
      }
    }
  }

  /** Sorting gives a sorted permutation. */
  lemma {:induction false} SortResult<T>(xs: seq<T>, key: T -> string)
    ensures SortedBy(SortBy(xs, key), key)
    ensures multiset(SortBy(xs, key)) == multiset(xs)
    decreases |xs|
  {
    if xs != [] {
      SortResult(xs[1..], key);
      InsertSorted(xs[0], SortBy(xs[1..], key), key);
      InsertIsPermutation(xs[0], SortBy(xs[1..], key), key);
      assert xs == [xs[0]] + xs[1..];
    }
  }

  function Itself(s: string): string {
    s
  }

  predicate Sorted(xs: seq<string>) {
    SortedBy(xs, Itself)
  }

  function Sort(xs: seq<string>): seq<string> {
    SortBy(xs, Itself)
  }

  lemma SameMembers<T>(a: seq<T>, b: seq<T>)
    requires multiset(a) == multiset(b)
    ensures forall x :: x in a <==> x in b
    ensures |a| == |b|
  {
    assert |multiset(a)| == |a| && |multiset(b)| == |b|;
    forall x ensures x in a <==> x in b {
      assert x in a <==> x in multiset(a);
      assert x in b <==> x in multiset(b);
    }
  }
}
