/**
 Byte strings found at a position of a longer one: the offset arithmetic shared by
 the codecs.
 */
module Spans {
  import opened Words

  // Bytes b of the string stand at position i.
  predicate At(bytes: Bytes, i: nat, b: Bytes) {
    i + |b| <= |bytes| && bytes[i..i + |b|] == b
  }

  lemma AtSplit(bytes: Bytes, i: nat, a: Bytes, b: Bytes)
    ensures At(bytes, i, a + b) <==> At(bytes, i, a) && At(bytes, i + |a|, b)
  {
    if At(bytes, i, a + b) {
      assert bytes[i..i + |a|] == (a + b)[..|a|];
      assert bytes[i + |a|..i + |a| + |b|] == (a + b)[|a|..];
    }
    if At(bytes, i, a) && At(bytes, i + |a|, b) {
      assert bytes[i..i + |a| + |b|] == bytes[i..i + |a|] + bytes[i + |a|..i + |a| + |b|];
    }
  }

  lemma AtShift(bytes: Bytes, start: nat, i: nat, b: Bytes)
    requires start <= |bytes|
    ensures At(bytes[start..], i, b) <==> At(bytes, start + i, b)
  {
    if start + i + |b| <= |bytes| {
      assert bytes[start..][i..i + |b|] == bytes[start + i..start + i + |b|];
    }
  }

  lemma PrefixAt(bytes: Bytes, i: nat, b: Bytes, a: Bytes)
    requires At(bytes, i, b) && |a| <= |b| && b[..|a|] == a
    ensures bytes[i..i + |a|] == a
  {
    assert bytes[i..i + |b|][..|a|] == bytes[i..i + |a|];
  }

  lemma AtFront(b: Bytes, s: Bytes)
    ensures At(b + s, 0, b)
  {
  }

  lemma AtBehind(front: Bytes, s: Bytes, i: nat, b: Bytes)
    requires At(s, i, b)
    ensures At(front + s, |front| + i, b)
  {
    assert (front + s)[|front|..] == s;
    AtShift(front + s, |front|, i, b);
  }

  lemma SubSub(s: Bytes, a: nat, b: nat, i: nat, j: nat)
    requires a <= b <= |s| && i <= j <= b - a
    ensures s[a..b][i..j] == s[a + i..a + j]
  {
    var t, u := s[a..b][i..j], s[a + i..a + j];
    forall k | 0 <= k < j - i
      ensures t[k] == u[k]
    {
      assert t[k] == s[a..b][i + k];
    }
    assert t == u;
  }
}
