/** Strings: where a character stands, splitting and joining on one, and the order of std::string's <. */
module Texts {

  /** What Python calls whitespace, by code point. */
  predicate IsPythonSpace(p: int)
  {
    || 0x09 <= p <= 0x0D || 0x1C <= p <= 0x20 || p == 0x85 || p == 0xA0 || p == 0x1680 || 0x2000 <= p <= 0x200A
    || p == 0x2028 || p == 0x2029 || p == 0x202F || p == 0x205F || p == 0x3000
  }

  /** The first place c stands; the length when nowhere. */
  function IndexOf(s: string, c: char): (i: nat)
    ensures i <= |s| && (i < |s| ==> s[i] == c)
    ensures forall k :: 0 <= k < i ==> s[k] != c
  {
    if s == "" || s[0] == c then 0 else 1 + IndexOf(s[1..], c)
  }

  function Split(s: string, c: char): (pieces: seq<string>)
    ensures pieces != []
  {
    var i := IndexOf(s, c);
    if i == |s| then [s] else [s[..i]] + Split(s[i + 1..], c)
  }

  function Join(pieces: seq<string>, c: char): string
  {
    if pieces == [] then [] else if |pieces| == 1 then pieces[0] else pieces[0] + [c] + Join(pieces[1..], c)
  }

  lemma IndexOfFirst(p: string, c: char, rest: string)
    requires c !in p
    ensures IndexOf(p + [c] + rest, c) == |p|
    ensures IndexOf(p, c) == |p|
    ensures (p + [c] + rest)[..|p|] == p && (p + [c] + rest)[|p| + 1..] == rest
  {
    var s := p + [c] + rest;
    assert s[|p|] == c;
    forall k | 0 <= k < |p| ensures s[k] != c { assert p[k] == s[k]; }
  }

  lemma SplitFirst(p: string, c: char, rest: string)
    requires c !in p
    ensures Split(p + [c] + rest, c) == [p] + Split(rest, c) && Split(p, c) == [p]
  {
    hide IndexOf;
    IndexOfFirst(p, c, rest);
  }

  lemma {:induction false} SplitOfJoin(pieces: seq<string>, c: char)
    requires pieces != [] && forall i :: 0 <= i < |pieces| ==> c !in pieces[i]
    ensures Split(Join(pieces, c), c) == pieces
  {
    hide Split;
    if |pieces| == 1 {
      SplitFirst(pieces[0], c, "");
    } else {
      SplitFirst(pieces[0], c, Join(pieces[1..], c));
      SplitOfJoin(pieces[1..], c);
    }
  }

  predicate Less(a: string, b: string)
  {
    if b == "" then false
    else if a == "" then true
    else a[0] < b[0] || (a[0] == b[0] && Less(a[1..], b[1..]))
  }

  /** The first difference is at i, and a is the smaller there. */
  predicate SmallerAt(a: string, b: string, i: nat)
  {
    i < |a| && i < |b| && a[..i] == b[..i] && a[i] < b[i]
  }

  /** Lexicographic: a proper prefix comes first, and else the first difference decides. */
  lemma {:induction false} LessIsLexicographic(a: string, b: string)
    ensures Less(a, b) <==> (a <= b && a != b) || exists i: nat :: i < |a| && SmallerAt(a, b, i)
  {
    if a == "" || b == "" {
    } else if a[0] == b[0] {
      hide SmallerAt;
      var c, d := a[1..], b[1..];
      LessIsLexicographic(c, d);
      SamePrefix(a, b);
      forall i: nat | i < |a| ensures SmallerAt(a, b, i) <==> i > 0 && SmallerAt(c, d, i - 1) { SmallerLater(a, b, i); }
      if i: nat :| i < |c| && SmallerAt(c, d, i) { assert SmallerAt(a, b, i + 1); }
    } else {
      forall i | 0 < i <= |a| && i <= |b| ensures a[..i] != b[..i] { DifferentStarts(a, b, i); }
      assert a[..0] == b[..0];
      if a[0] < b[0] { assert SmallerAt(a, b, 0); }
    }
  }

  lemma SamePrefix(a: string, b: string)
    requires a != "" && b != "" && a[0] == b[0]
    ensures a <= b <==> a[1..] <= b[1..]
    ensures a == b <==> a[1..] == b[1..]
  {
    assert a == [a[0]] + a[1..] && b == [b[0]] + b[1..];
  }

  lemma SmallerLater(a: string, b: string, i: nat)
    requires a != "" && b != "" && a[0] == b[0]
    ensures SmallerAt(a, b, i) <==> i > 0 && SmallerAt(a[1..], b[1..], i - 1)
  {
    if 0 < i < |a| && i < |b| {
      assert a[..i] == [a[0]] + a[1..][..i - 1] && b[..i] == [b[0]] + b[1..][..i - 1];
      assert a[..i][1..] == a[1..][..i - 1] && b[..i][1..] == b[1..][..i - 1];
    }
  }

  lemma DifferentStarts(a: string, b: string, i: nat)
    requires 0 < i <= |a| && i <= |b| && a[0] != b[0]
    ensures a[..i] != b[..i]
  {
    assert a[..i][0] == a[0] && b[..i][0] == b[0];
  }

  lemma {:induction false} LessIsTotal(a: string, b: string)
    ensures a == b || Less(a, b) || Less(b, a)
  {
    if a != "" && b != "" && a[0] == b[0] {
      LessIsTotal(a[1..], b[1..]);
      assert a == [a[0]] + a[1..] && b == [b[0]] + b[1..];
    }
  }

  lemma {:induction false} LessIsAsymmetric(a: string, b: string)
    ensures Less(a, b) ==> !Less(b, a)
  {
    if a != "" && b != "" && a[0] == b[0] { LessIsAsymmetric(a[1..], b[1..]); }
  }

  lemma {:induction false} LessIsTransitive(a: string, b: string, c: string)
    ensures Less(a, b) && Less(b, c) ==> Less(a, c)
  {
    if a != "" && b != "" && c != "" && a[0] == b[0] == c[0] { LessIsTransitive(a[1..], b[1..], c[1..]); }
  }
}
