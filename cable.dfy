/**
 * The cable value object the splitter consumes and produces. Its own source
 * file is not part of this model: the splitter only reads `length` and
 * `name` and builds new cables with the two-argument constructor, so it is a
 * plain datatype here, with no invariant assumed beyond its two fields.
 */
module Cables {

  datatype Cable = Cable(length: int, name: string)

  /** The summed length of a list of cables. */
  function TotalLength(s: seq<Cable>): int
  {
    if s == [] then 0 else TotalLength(s[..|s| - 1]) + s[|s| - 1].length
  }

  /** Lengths add up over concatenation. */
  lemma {:induction false} TotalLengthAppend(a: seq<Cable>, b: seq<Cable>)
    ensures TotalLength(a + b) == TotalLength(a) + TotalLength(b)
    decreases |b|
  {
    if b == [] {
      assert a + b == a;
    } else {
      var b' := b[..|b| - 1];
      assert (a + b)[..|a + b| - 1] == a + b';
      TotalLengthAppend(a, b');
    }
  }

  /** Appending one cable adds its length. */
  lemma TotalLengthSnoc(a: seq<Cable>, c: Cable)
    ensures TotalLength(a + [c]) == TotalLength(a) + c.length
  {
    assert (a + [c])[..|a|] == a;
  }

  /** `count` cables of length `len` followed by one of `len + extra` add up to `(count + 1) * len + extra`. */
  lemma TotalLengthSnocUniform(a: seq<Cable>, c: Cable, count: int, len: int, extra: int)
    requires TotalLength(a) == count * len && c.length == len + extra
    ensures TotalLength(a + [c]) == (count + 1) * len + extra
  {
    TotalLengthSnoc(a, c);
    assert (count + 1) * len == count * len + len;
  }
}
