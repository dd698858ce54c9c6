/**
  * String helpers with the semantics of the JavaScript built-ins the extension
  * relies on: `Array.prototype.join`, `String.prototype.split` with a
  * one-character separator, `includes`, `startsWith`, `slice(0, n)` and the
  * rendering of integers inside template literals.
  */
module Text {

  datatype Option<+T> = None | Some(value: T)

  function Min(a: int, b: int): int {
    if a <= b then a else b
  }

  /** `parts.join(sep)`: the parts with `sep` between neighbours. */
  function Join(parts: seq<string>, sep: string): string
  {
    if parts == [] then ""
    else if |parts| == 1 then parts[0]
    else parts[0] + sep + Join(parts[1..], sep)
  }

  /** A join starts with its first part. */
  lemma JoinFirst(parts: seq<string>, sep: string)
    requires parts != []
    ensures StartsWith(Join(parts, sep), parts[0])
  {
    if |parts| > 1 {
      assert Join(parts, sep) == parts[0] + (sep + Join(parts[1..], sep));
      PrefixOfConcat(parts[0], sep + Join(parts[1..], sep));
    } else {
      assert parts[0][..|parts[0]|] == parts[0];
    }
  }

  /** A join ends with its last part. */
  lemma {:induction false} JoinLast(parts: seq<string>, sep: string)
    requires parts != []
    ensures EndsWith(Join(parts, sep), parts[|parts| - 1])
  {
    if |parts| > 1 {
      var rest := Join(parts[1..], sep);
      JoinLast(parts[1..], sep);
      assert Join(parts, sep) == (parts[0] + sep) + rest;
      SuffixOfConcat(parts[0] + sep, rest);
      SuffixOfSuffix(Join(parts, sep), rest, parts[|parts| - 1]);
    } else {
      assert parts[0][|parts[0]| - |parts[0]|..] == parts[0];
    }
  }

  /** The position of the first `c` in `s`, or `|s|` when there is none. */
  function IndexOf(s: string, c: char): (i: nat)
    ensures i <= |s|
  {
    if s == [] then 0
    else if s[0] == c then 0
    else 1 + IndexOf(s[1..], c)
  }

  /** `IndexOf` finds a separator, and none comes before it. */
  lemma {:induction false} IndexOfFirst(s: string, c: char)
    ensures IndexOf(s, c) < |s| ==> s[IndexOf(s, c)] == c
    ensures forall k :: 0 <= k < IndexOf(s, c) ==> s[k] != c
  {
    if s != [] && s[0] != c {
      IndexOfFirst(s[1..], c);
    }
  }

  /** `s.split(c)` for a one-character separator `c`: the first piece, then the rest split again. */
  function Split(s: string, c: char): (r: seq<string>)
    ensures |r| >= 1
    decreases |s|
  {
    var i := IndexOf(s, c);
    if i == |s| then [s] else [s[..i]] + Split(s[i + 1..], c)
  }

  /** A separator that occurs is found. */
  lemma IndexOfFound(s: string, c: char)
    requires c in s
    ensures IndexOf(s, c) < |s|
  {
    IndexOfFirst(s, c);
    var w :| 0 <= w < |s| && s[w] == c;
  }

  /** The first piece is the text before the first separator, and holds no separator. */
  lemma SplitHead(s: string, c: char)
    ensures Split(s, c)[0] == s[..IndexOf(s, c)] && c !in Split(s, c)[0]
  {
    IndexOfFirst(s, c);
  }

  /** With a separator present, the second piece is the first piece of the text after it. */
  lemma SplitSecond(s: string, c: char)
    requires c in s
    ensures IndexOf(s, c) < |s| && |Split(s, c)| >= 2
    ensures Split(s, c)[1] == Split(s[IndexOf(s, c) + 1..], c)[0]
  {
    IndexOfFound(s, c);
    var i := IndexOf(s, c);
    var rest := Split(s[i + 1..], c);
    assert Split(s, c) == [s[..i]] + rest;
    assert ([s[..i]] + rest)[1] == rest[0];
  }

  /** A text without the separator is its own single piece. */
  lemma SplitFree(s: string, c: char)
    requires c !in s
    ensures Split(s, c) == [s]
  {
    IndexOfFirst(s, c);
    assert forall k :: 0 <= k < |s| ==> s[k] != c;
  }

  /** The pieces of every string of `xs`, concatenated in order. */
  function SplitAll(xs: seq<string>, c: char): seq<string>
  {
    if xs == [] then [] else Split(xs[0], c) + SplitAll(xs[1..], c)
  }

  ghost predicate FreeOf(xs: seq<string>, c: char) {
    forall i :: 0 <= i < |xs| ==> c !in xs[i]
  }

  /** `s.startsWith(t)` */
  predicate StartsWith(s: string, t: string) {
    |t| <= |s| && s[..|t|] == t
  }

  /** `s.endsWith(t)` */
  predicate EndsWith(s: string, t: string) {
    |t| <= |s| && s[|s| - |t|..] == t
  }

  lemma PrefixOfConcat(a: string, b: string)
    ensures StartsWith(a + b, a)
  {
    assert (a + b)[..|a|] == a;
  }

  lemma SuffixOfConcat(a: string, b: string)
    ensures EndsWith(a + b, b)
  {
    assert (a + b)[|a|..] == b;
  }

  lemma SuffixThrough(h: string, b: string, t: string)
    requires EndsWith(b, t)
    ensures EndsWith(h + b, t)
  {
    assert (h + b)[|h + b| - |t|..] == b[|b| - |t|..];
  }

  lemma SuffixOfSuffix(s: string, t: string, u: string)
    requires EndsWith(s, t) && EndsWith(t, u)
    ensures EndsWith(s, u)
  {
    assert s[|s| - |u|..] == t[|t| - |u|..];
  }

  lemma PrefixOfPrefix(s: string, t: string, u: string)
    requires StartsWith(s, t) && StartsWith(t, u)
    ensures StartsWith(s, u)
  {
    assert s[..|u|] == t[..|u|];
  }

  /** A concatenation starts with its first part and ends with its last. */
  lemma Affixes(head: string, body: string, tail: string)
    ensures StartsWith(head + body + tail, head) && EndsWith(head + body + tail, tail)
  {
    assert (head + body + tail)[..|head|] == head;
    assert (head + body + tail)[|head + body|..] == tail;
  }

  /** `s.includes(t)`, as a scan over the start positions of `s`. */
  predicate Contains(s: string, t: string)
    decreases |s|
  {
    if |s| < |t| then false
    else s[..|t|] == t || Contains(s[1..], t)
  }

  /** `s.slice(0, n)`: the first `n` characters, or all of `s` when shorter. */
  function Prefix(s: string, n: nat): (r: string)
    ensures |r| == Min(n, |s|) && r == s[..|r|]
  {
    if |s| <= n then s else s[..n]
  }

  function DigitChar(d: nat): char
    requires d < 10
  {
    "0123456789"[d]
  }

  /** Decimal rendering of a natural number, as `${n}` gives it. */
  function NatToString(n: nat): (r: string)
    ensures |r| >= 1
  {
    if n < 10 then [DigitChar(n)] else NatToString(n / 10) + [DigitChar(n % 10)]
  }

  /** Decimal rendering of an integer, with a leading `-` when negative. */
  function IntToString(i: int): string
  {
    if i < 0 then "-" + NatToString(-i) else NatToString(i)
  }

  /** A join of six parts, written out. */
  lemma JoinSix(a: string, b: string, c: string, d: string, e: string, f: string, sep: string)
    ensures Join([a, b, c, d, e, f], sep) == a + sep + b + sep + c + sep + d + sep + e + sep + f
  {
    var p5: seq<string> := [f];
    var p4 := [e] + p5;
    var p3 := [d] + p4;
    var p2 := [c] + p3;
    var p1 := [b] + p2;
    var p0 := [a] + p1;
    assert Join(p5, sep) == f;
    assert Join(p4, sep) == e + sep + f by { JoinCons(e, p5, sep); }
    assert Join(p3, sep) == d + sep + (e + sep + f) by { JoinCons(d, p4, sep); }
    assert Join(p2, sep) == c + sep + (d + sep + (e + sep + f)) by { JoinCons(c, p3, sep); }
    assert Join(p1, sep) == b + sep + (c + sep + (d + sep + (e + sep + f))) by { JoinCons(b, p2, sep); }
    assert Join(p0, sep) == a + sep + (b + sep + (c + sep + (d + sep + (e + sep + f)))) by { JoinCons(a, p1, sep); }
    ConsSix(a, b, c, d, e, f);
    RegroupJoin(a, b, c, d, e, f, sep);
  }

  /** A six-part join is its first two parts, the middle part, and its last three parts. */
  lemma MiddleOfSix<T>(a: seq<T>, b: seq<T>, m: seq<T>, d: seq<T>, e: seq<T>, f: seq<T>, sep: seq<T>)
    ensures a + sep + b + sep + m + sep + d + sep + e + sep + f
      == (a + sep + b + sep) + m + (sep + d + sep + e + sep + f)
  {
  }

  /** Joining a list with a head. */
  lemma JoinCons(x: string, xs: seq<string>, sep: string)
    requires xs != []
    ensures Join([x] + xs, sep) == x + sep + Join(xs, sep)
  {
    assert ([x] + xs)[1..] == xs;
  }

  /** Regrouping a right-nested six-part join into the left-nested one. */
  lemma RegroupJoin<T>(a: seq<T>, b: seq<T>, c: seq<T>, d: seq<T>, e: seq<T>, f: seq<T>, sep: seq<T>)
    ensures a + sep + (b + sep + (c + sep + (d + sep + (e + sep + f))))
      == a + sep + b + sep + c + sep + d + sep + e + sep + f
  {
  }

  /** The first separator of `a + t` is the first one of `a`, or else the first one of `t`. */
  lemma IndexOfConcat(a: string, t: string, c: char)
    ensures IndexOf(a + t, c) == if IndexOf(a, c) < |a| then IndexOf(a, c) else |a| + IndexOf(t, c)
  {
    var i, j := IndexOf(a + t, c), IndexOf(a, c);
    IndexOfFirst(a + t, c);
    IndexOfFirst(a, c);
    IndexOfFirst(t, c);
    if j < |a| {
      assert (a + t)[j] == c;
    } else {
      var k := IndexOf(t, c);
      if k < |t| {
        assert (a + t)[|a| + k] == c;
      }
      forall m | 0 <= m < |a| + k ensures (a + t)[m] != c {
        if m >= |a| { assert (a + t)[m] == t[m - |a|]; }
      }
    }
  }

  /** The pieces of a text whose first separator is at `i`. */
  lemma SplitAt(s: string, c: char, i: nat)
    requires i < |s| && IndexOf(s, c) == i
    ensures Split(s, c) == [s[..i]] + Split(s[i + 1..], c)
  {
  }

  lemma AppendAssoc<T>(x: seq<T>, p: seq<T>, q: seq<T>)
    ensures x + (p + q) == (x + p) + q
  {
  }

  /** The first half holds no separator: it is the first piece. */
  lemma SplitAroundFree(a: string, b: string, c: char)
    requires IndexOf(a, c) == |a|
    ensures Split(a + [c] + b, c) == Split(a, c) + Split(b, c)
  {
    var s := a + [c] + b;
    assert IndexOf(s, c) == |a| by {
      IndexOfConcat(a, [c] + b, c);
      assert s == a + ([c] + b);
    }
    SplitAt(s, c, |a|);
    assert s[..|a|] == a && s[|a| + 1..] == b;
  }

  /** The first half holds a separator at `j`: the first piece is cut there, the rest is the shorter case. */
  lemma SplitAroundCut(a: string, b: string, c: char, j: nat)
    requires j < |a| && IndexOf(a, c) == j
    ensures Split(a + [c] + b, c) == [a[..j]] + Split(a[j + 1..] + [c] + b, c)
    ensures Split(a, c) == [a[..j]] + Split(a[j + 1..], c)
  {
    var s := a + [c] + b;
    assert IndexOf(s, c) == j by {
      IndexOfConcat(a, [c] + b, c);
      assert s == a + ([c] + b);
    }
    SplitAt(s, c, j);
    SplitAt(a, c, j);
    assert s[..j] == a[..j] && s[j + 1..] == a[j + 1..] + [c] + b;
  }

  /** Splitting a text made of two halves around a separator splits each half. */
  lemma {:induction false} SplitAround(a: string, b: string, c: char)
    ensures Split(a + [c] + b, c) == Split(a, c) + Split(b, c)
    decreases |a|
  {
    var j := IndexOf(a, c);
    if j == |a| {
      SplitAroundFree(a, b, c);
    } else {
      var rest := a[j + 1..];
      SplitAroundCut(a, b, c, j);
      SplitAround(rest, b, c);
      AppendAssoc([a[..j]], Split(rest, c), Split(b, c));
    }
  }

  /** Splitting a joined list gives back the pieces of every element, in order. */
  lemma {:induction false} SplitJoin(xs: seq<string>, c: char)
    requires xs != []
    ensures Split(Join(xs, [c]), c) == SplitAll(xs, c)
  {
    if |xs| == 1 {
      assert SplitAll(xs[1..], c) == [];
    } else {
      SplitJoin(xs[1..], c);
      SplitAround(xs[0], Join(xs[1..], [c]), c);
    }
  }

  lemma SplitAllCons(x: string, xs: seq<string>, c: char)
    ensures SplitAll([x] + xs, c) == Split(x, c) + SplitAll(xs, c)
  {
    assert ([x] + xs)[1..] == xs;
  }

  /** A separator-free head contributes itself as one piece. */
  lemma SplitAllConsFree(x: string, xs: seq<string>, c: char)
    requires c !in x
    ensures SplitAll([x] + xs, c) == [x] + SplitAll(xs, c)
  {
    SplitAllCons(x, xs, c);
    SplitFree(x, c);
  }

  /** A six-element list, built from the back. */
  lemma ConsSix<T>(a: T, b: T, m: T, d: T, e: T, f: T)
    ensures [a] + ([b] + ([m] + ([d] + ([e] + [f])))) == [a, b, m, d, e, f]
  {
  }

  /** Regrouping five nested concatenations. */
  lemma Regroup<T>(a: T, b: T, sm: seq<T>, d: T, e: T, sf: seq<T>)
    ensures [a] + ([b] + (sm + ([d] + ([e] + sf)))) == [a, b] + sm + [d, e] + sf
  {
  }

  /** The pieces of a six-part list whose first, second, fourth and fifth parts are separator-free. */
  lemma SplitAllSix(a: string, b: string, m: string, d: string, e: string, f: string, c: char)
    requires c !in a && c !in b && c !in d && c !in e
    ensures SplitAll([a, b, m, d, e, f], c) == [a, b] + Split(m, c) + [d, e] + Split(f, c)
  {
    var p5: seq<string> := [f];
    var p4 := [e] + p5;
    var p3 := [d] + p4;
    var p2 := [m] + p3;
    var p1 := [b] + p2;
    var p0 := [a] + p1;
    ghost var sm, sf := Split(m, c), Split(f, c);
    assert SplitAll(p5, c) == sf by {
      SplitAllCons(f, [], c);
      assert [f] + [] == p5;
    }
    assert SplitAll(p4, c) == [e] + sf by { SplitAllConsFree(e, p5, c); }
    assert SplitAll(p3, c) == [d] + ([e] + sf) by { SplitAllConsFree(d, p4, c); }
    assert SplitAll(p2, c) == sm + ([d] + ([e] + sf)) by { SplitAllCons(m, p3, c); }
    assert SplitAll(p1, c) == [b] + (sm + ([d] + ([e] + sf))) by { SplitAllConsFree(b, p2, c); }
    assert SplitAll(p0, c) == [a] + ([b] + (sm + ([d] + ([e] + sf)))) by { SplitAllConsFree(a, p1, c); }
    ConsSix(a, b, m, d, e, f);
    Regroup(a, b, sm, d, e, sf);
  }

  /** Splitting a six-part join whose first, second, fourth and fifth parts are separator-free. */
  lemma SplitJoinSix(a: string, b: string, m: string, d: string, e: string, f: string, c: char)
    requires c !in a && c !in b && c !in d && c !in e
    ensures Split(Join([a, b, m, d, e, f], [c]), c) == [a, b] + Split(m, c) + [d, e] + Split(f, c)
  {
    SplitJoin([a, b, m, d, e, f], c);
    SplitAllSix(a, b, m, d, e, f, c);
  }

  /** Elements that do not contain the separator are their own single piece. */
  lemma {:induction false} SplitAllFree(xs: seq<string>, c: char)
    requires FreeOf(xs, c)
    ensures SplitAll(xs, c) == xs
  {
    if xs != [] {
      assert FreeOf(xs[1..], c) by {
        forall i | 0 <= i < |xs[1..]| ensures c !in xs[1..][i] {
          assert xs[1..][i] == xs[i + 1];
        }
      }
      SplitAllFree(xs[1..], c);
      SplitFree(xs[0], c);
    }
  }

  /** Joining and splitting on the same separator are inverse on separator-free lists. */
  lemma JoinRoundTrip(xs: seq<string>, c: char)
    requires xs != [] && FreeOf(xs, c)
    ensures Split(Join(xs, [c]), c) == xs
  {
    SplitJoin(xs, c);
    SplitAllFree(xs, c);
  }

  /** `t` occurs in `s` starting at position `i`. */
  ghost predicate OccursAt(s: string, t: string, i: int) {
    0 <= i && i + |t| <= |s| && s[i..i + |t|] == t
  }

  /** `includes` holds exactly when `t` occurs at some position of `s`. */
  lemma {:induction false} ContainsIff(s: string, t: string)
    ensures Contains(s, t) <==> exists i :: OccursAt(s, t, i)
  {
    if |s| >= |t| && s[..|t|] != t {
      ContainsIff(s[1..], t);
      if Contains(s[1..], t) {
        var i :| OccursAt(s[1..], t, i);
        assert OccursAt(s, t, i + 1);
      }
      if exists i :: OccursAt(s, t, i) {
        var i :| OccursAt(s, t, i);
        assert i != 0;
        assert OccursAt(s[1..], t, i - 1);
      }
    } else if |s| >= |t| {
      assert OccursAt(s, t, 0);
    }
  }

  /** A text includes every string it is built around. */
  lemma ContainsMiddle(a: string, t: string, b: string)
    ensures Contains(a + t + b, t)
  {
    ContainsIff(a + t + b, t);
    assert (a + t + b)[|a|..|a| + |t|] == t;
    assert OccursAt(a + t + b, t, |a|);
  }
}
