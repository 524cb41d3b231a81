/** Splitting and joining strings at a separator character. */
module Strings {

  /** The part before the first separator; all of it when there is none. */
  function Before(s: string, c: char): (r: string)
    ensures c !in r && r <= s
    ensures c in s ==> |r| < |s| && s[|r|] == c
    ensures c !in s ==> r == s
  {
    if s == [] || s[0] == c then [] else [s[0]] + Before(s[1..], c)
  }

  function Split(s: string, c: char): (parts: seq<string>)
    ensures |parts| >= 1
  {
    if c !in s then [s] else [Before(s, c)] + Split(s[|Before(s, c)| + 1..], c)
  }

  function Join(parts: seq<string>, sep: string): string {
    if parts == [] then []
    else if |parts| == 1 then parts[0]
    else parts[0] + sep + Join(parts[1..], sep)
  }

  lemma {:induction false} BeforeIs(p: string, c: char, rest: string)
    requires c !in p
    ensures Before(p + [c] + rest, c) == p
  {
    if p != [] {
      assert (p + [c] + rest)[1..] == p[1..] + [c] + rest;
      BeforeIs(p[1..], c, rest);
    } else {
      assert (p + [c] + rest)[0] == c;
    }
  }

  /** A first part without separator is split off. */
  lemma SplitFirst(p: string, c: char, rest: string)
    requires c !in p
    ensures Split(p + [c] + rest, c) == [p] + Split(rest, c)
  {
    var s := p + [c] + rest;
    BeforeIs(p, c, rest);
    assert s[|p|] == c;
    assert s[|p| + 1..] == rest;
  }

  lemma {:induction false} SplitParts(s: string, c: char)
    ensures forall part | part in Split(s, c) :: c !in part
    ensures Join(Split(s, c), [c]) == s
    ensures |Split(s, c)| >= 2 <==> c in s
    decreases |s|
  {
    if c in s {
      var p := Before(s, c);
      SplitParts(s[|p| + 1..], c);
      assert s == p + [c] + s[|p| + 1..];
      var rest := Split(s[|p| + 1..], c);
      assert Split(s, c)[1..] == rest;
    }
  }

  /** Two parts around a separator. */
  function Glue(a: string, c: char, b: string): string {
    a + [c] + b
  }

  lemma GlueAssociative(a: string, c: char, b: string, d: string)
    ensures Glue(Glue(a, c, b), c, d) == Glue(a, c, Glue(b, c, d))
  {
  }

  lemma SplitGlue(a: string, c: char, b: string)
    requires c !in a
    ensures Split(Glue(a, c, b), c) == [a] + Split(b, c)
  {
    SplitFirst(a, c, b);
  }

  lemma BeforeGlue(a: string, c: char, b: string)
    ensures Before(Glue(a, c, b), c) == Before(a, c)
  {
    var p := Before(a, c);
    if c in a {
      assert Glue(a, c, b) == p + [c] + (a[|p| + 1..] + [c] + b);
      BeforeIs(p, c, a[|p| + 1..] + [c] + b);
    } else {
      BeforeIs(a, c, b);
    }
  }

  lemma SplitHead(s: string, c: char)
    ensures Split(s, c)[0] == Before(s, c)
  {
  }

  lemma JoinTwo(a: string, b: string, c: char)
    ensures Join([a, b], [c]) == Glue(a, c, b)
  {
  }

  lemma JoinFour(a: string, b: string, d: string, e: string, c: char)
    ensures Join([a, b, d, e], [c]) == Glue(a, c, Glue(b, c, Glue(d, c, e)))
  {
    assert [a, b, d, e][1..] == [b, d, e] && [b, d, e][1..] == [d, e];
    JoinTwo(d, e, c);
  }

  lemma GlueNested(a: string, b: string, d: string, e: string, c: char)
    ensures Glue(Glue(Glue(a, c, b), c, d), c, e) == Glue(a, c, Glue(b, c, Glue(d, c, e)))
  {
    GlueAssociative(a, c, b, d);
    GlueAssociative(a, c, Glue(b, c, d), e);
    GlueAssociative(b, c, d, e);
  }

  lemma SplitThree(a: string, b: string, d: string, e: string, c: char)
    requires c !in a && c !in b && c !in d
    ensures Split(Glue(a, c, Glue(b, c, Glue(d, c, e))), c) == [a] + ([b] + ([d] + Split(e, c)))
  {
    SplitGlue(a, c, Glue(b, c, Glue(d, c, e)));
    SplitGlue(b, c, Glue(d, c, e));
    SplitGlue(d, c, e);
  }
}
