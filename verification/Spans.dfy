/** A stretch of a sequence standing at an offset, as the token reader and the byte scanner see their input. */
module Spans {
  ghost predicate At<T(!new)>(s: seq<T>, i: nat, part: seq<T>) {
    i + |part| <= |s| && s[i..i + |part|] == part
  }

  lemma AtSplit<T(!new)>(s: seq<T>, i: nat, a: seq<T>, b: seq<T>)
    ensures At(s, i, a + b) <==> At(s, i, a) && At(s, i + |a|, b)
  {
    if At(s, i, a + b) {
      assert s[i..i + |a|] == s[i..i + |a + b|][..|a|];
      assert s[i + |a|..i + |a| + |b|] == s[i..i + |a + b|][|a|..];
    }
    if At(s, i, a) && At(s, i + |a|, b) {
      assert s[i..i + |a + b|] == s[i..i + |a|] + s[i + |a|..i + |a| + |b|];
    }
  }

  lemma AtFirst<T(!new)>(s: seq<T>, i: nat, part: seq<T>)
    requires At(s, i, part) && part != []
    ensures i < |s| && s[i] == part[0]
  {
    assert s[i] == s[i..i + |part|][0];
  }
}
