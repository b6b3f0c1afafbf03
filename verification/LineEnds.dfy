/** Line ends in comments and processing instructions: section 2.11 of XML 1.0. */
module LineEnds {
  import opened Encodings

  const ASCII_CR: Byte := 0x0D

  /** A carriage return, with the line feed that may follow it, is a line feed. */
  function NormalizedLines(s: Bytes): Bytes
    decreases |s|
  {
    if s == [] then []
    else if s[0] != ASCII_CR then [s[0]] + NormalizedLines(s[1..])
    else [ASCII_LF] + NormalizedLines(if |s| > 1 && s[1] == ASCII_LF then s[2..] else s[1..])
  }

  /** What has no carriage return is left as it is, and nothing else is. */
  lemma {:induction false} NormalizedIsSame(s: Bytes)
    ensures NormalizedLines(s) == s <==> ASCII_CR !in s
    ensures ASCII_CR !in NormalizedLines(s)
    decreases |s|
  {
    if s != [] {
      if s[0] != ASCII_CR {
        NormalizedIsSame(s[1..]);
        assert s == [s[0]] + s[1..];
      } else {
        NormalizedIsSame(if |s| > 1 && s[1] == ASCII_LF then s[2..] else s[1..]);
        assert NormalizedLines(s)[0] != s[0];
      }
    }
  }

  lemma {:induction false} NormalizedAppend(a: Bytes, b: Bytes)
    requires ASCII_CR !in a
    ensures NormalizedLines(a + b) == a + NormalizedLines(b)
    decreases |a|
  {
    if a == [] {
      assert a + b == b;
    } else {
      assert (a + b)[1..] == a[1..] + b;
      NormalizedAppend(a[1..], b);
    }
  }

  lemma LineNext(w: Bytes, q: nat)
    requires q < |w|
    ensures NormalizedLines(w[q..]) ==
      if w[q] != ASCII_CR then [w[q]] + NormalizedLines(w[q + 1..])
      else [ASCII_LF] + NormalizedLines(if q + 1 < |w| && w[q + 1] == ASCII_LF then w[q + 2..] else w[q + 1..])
  {
    var v := w[q..];
    assert v[1..] == w[q + 1..];
    if q + 1 < |w| { assert v[1] == w[q + 1] && v[2..] == w[q + 2..]; }
  }

  lemma NothingNormalized()
    ensures NormalizedLines([]) == []
  {
  }

  /** `normalizeLines`: in place, with a write position that falls behind the read position. */
  method NormalizeLines(s: array<Byte>) returns (p: nat)
    modifies s
    ensures p <= s.Length && s[..p] == NormalizedLines(old(s[..]))
  {
    hide NormalizedLines;
    ghost var was := s[..];
    p := 0;
    while p < s.Length && s[p] != ASCII_CR
      invariant 0 <= p <= s.Length && ASCII_CR !in s[..p]
      invariant s[..] == was
    {
      p := p + 1;
    }
    assert was == was[..p] + was[p..];
    NormalizedAppend(was[..p], was[p..]);
    var q := p;
    while q < s.Length
      invariant 0 <= p <= q <= s.Length && forall k :: q <= k < s.Length ==> s[k] == was[k]
      invariant s[..p] + NormalizedLines(was[q..]) == NormalizedLines(was)
    {
      ghost var before := s[..p];
      LineNext(was, q);
      if s[q] == ASCII_CR {
        s[p] := ASCII_LF;
        q := if q + 1 < s.Length && s[q + 1] == ASCII_LF then q + 2 else q + 1;
      } else {
        s[p] := s[q];
        q := q + 1;
      }
      assert s[..p + 1] == before + [s[p]];
      assert before + ([s[p]] + NormalizedLines(was[q..])) == s[..p + 1] + NormalizedLines(was[q..]);
      p := p + 1;
    }
    NothingNormalized();
    assert was[q..] == [];
    assert s[..p] + [] == s[..p];
  }
}
