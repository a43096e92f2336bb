/** Bytes, C strings and the buffers that hold them. */
module ByteStrings {

  type Byte = x: int | 0 <= x < 256
  type Str = seq<Byte>

  const NUL: Byte := 0
  const LF: Byte := 10
  const CR: Byte := 13
  const QUOTE: Byte := 34

  /** The text of a C string. */
  predicate NulFree(s: Str) {
    forall i | 0 <= i < |s| :: s[i] != NUL
  }

  /** The C string at `off` is `s`. */
  ghost predicate Holds(z: Str, off: nat, s: Str) {
    off + |s| < |z| && z[off..off + |s|] == s && z[off + |s|] == NUL
  }

  lemma HoldsRoom(z: Str, off: nat, s: Str)
    requires Holds(z, off, s)
    ensures off + |s| < |z|
  {
  }

  // ---------- rewriting a string in place, from left to right ----------

  /** The buffer while the string `s` behind `pre` is rewritten: `out` has been written over its
      beginning, and from place `j` on it is still as it was. */
  ghost predicate Midway(z: Str, pre: Str, out: Str, s: Str, j: nat, post: Str) {
    && |z| == |pre| + |s| + |post| && |out| <= j <= |s| && post != [] && post[0] == NUL
    && z[..|pre|] == pre && z[|pre|..|pre| + |out|] == out && z[|pre| + j..] == s[j..] + post
  }

  lemma MidwayStart(z: Str, pre: Str, s: Str, j: nat, post: Str)
    requires j <= |s| && Holds(z, |pre|, s)
    requires |z| == |pre| + |s| + |post| && z[..|pre|] == pre && z[|pre| + |s|..] == post
    ensures Midway(z, pre, [], s, j, post)
  {
    assert z[|pre| + j..] == z[|pre|..|pre| + |s|][j..] + z[|pre| + |s|..];
  }

  /** What is read ahead is still the string. */
  lemma MidwayRead(z: Str, pre: Str, out: Str, s: Str, j: nat, k: nat, post: Str)
    requires Midway(z, pre, out, s, j, post) && NulFree(s) && j <= k <= |s|
    ensures |pre| + k < |z| && (z[|pre| + k] == NUL <==> k == |s|)
    ensures k < |s| ==> z[|pre| + k] == s[k]
  {
    assert z[|pre| + k] == z[|pre| + j..][k - j];
  }

  lemma MidwaySkip(z: Str, pre: Str, out: Str, s: Str, j: nat, next: nat, post: Str)
    requires Midway(z, pre, out, s, j, post) && j <= next <= |s|
    ensures Midway(z, pre, out, s, next, post)
  {
    assert z[|pre| + next..] == z[|pre| + j..][next - j..];
  }

  /** A byte is written, and reading goes on at `next`, which is beyond the place written to. */
  lemma MidwayWrite(z: Str, z': Str, at: nat, c: Byte, pre: Str, out: Str, s: Str, j: nat, next: nat, post: Str)
    requires Midway(z, pre, out, s, j, post) && j <= next <= |s| && |out| < next
    requires at == |pre| + |out| && z' == z[at := c]
    ensures Midway(z', pre, out + [c], s, next, post)
  {
    assert z'[|pre| + next..] == z[|pre| + j..][next - j..];
  }

  lemma MidwayEnd(z: Str, z': Str, at: nat, pre: Str, out: Str, s: Str, j: nat, post: Str)
    requires Midway(z, pre, out, s, j, post)
    requires at == |pre| + |out| && z' == z[at := NUL]
    ensures Holds(z', |pre|, out) && z'[..|pre|] == pre && z'[|pre| + |s|..] == post
  {
    assert z'[|pre|..|pre| + |out|] == z[|pre|..|pre| + |out|];
    if |out| < |s| {
      assert z'[|pre| + |s|..] == z[|pre| + j..][|s| - j..];
    } else {
      assert z'[|pre| + |s|..] == (s[j..] + post)[|s| - j..];
    }
  }
}
