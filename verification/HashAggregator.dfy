/**
  HashHelper::Aggregator of src/Generics/Hash.hpp: bytes arrive in chunks of any length and
  are handed to the mixer a machine word at a time.

  A machine word is the sequence of its bytes, least significant first, so that a shift by
  a multiple of eight bits moves bytes and `|` works byte by byte. The mixer is a parameter.
 */
module HashAggregator {

  type Byte = bv8
  type Word = seq<Byte>

  // ---------------------------------------------------------------- machine words

  const SIZE_T := 8  // sizeof(std::size_t)

  function Zeros(n: nat): (z: Word)
    ensures |z| == n && forall i :: 0 <= i < n ==> z[i] == 0
  {
    seq(n, _ => 0)
  }

  /** Conversion of an unsigned value to a wider type. */
  function Widen(w: Word, n: nat): (r: Word)
    requires |w| <= n
    ensures |r| == n
  {
    w + Zeros(n - |w|)
  }

  function Or(a: Word, b: Word): (r: Word)
    requires |a| == |b|
    ensures |r| == |a| && forall i :: 0 <= i < |a| ==> r[i] == a[i] | b[i]
  {
    seq(|a|, i requires 0 <= i < |a| => a[i] | b[i])
  }

  /** w << (8 * k) */
  function ShiftLeft(w: Word, k: nat): (r: Word)
    requires k <= |w|
    ensures |r| == |w|
  {
    Zeros(k) + w[..|w| - k]
  }

  /** Bytes or-ed in above the low `|low|` bytes of a word extend it. */
  lemma OrAbove(low: Word, high: Word, n: nat)
    requires |low| + |high| <= n
    ensures Or(Widen(low, n), ShiftLeft(Widen(high, n), |low|)) == Widen(low + high, n)
  {
    var a, b, c := Widen(low, n), ShiftLeft(Widen(high, n), |low|), Widen(low + high, n);
    forall i | 0 <= i < n ensures a[i] | b[i] == c[i] {
      if i < |low| {
        assert b[i] == 0;
      } else {
        assert a[i] == 0;
        assert b[i] == Widen(high, n)[i - |low|];
      }
    }
    assert Or(a, b) == c;
  }

  lemma WidenFull(w: Word)
    ensures Widen(w, |w|) == w
  {
  }

  /** Of a word shifted left and cut to `width` bytes, only the low `width - k` bytes count. */
  lemma ShiftedRead(key: Word, k: nat, width: nat)
    requires |key| <= width <= SIZE_T && k <= width
    ensures var n := if |key| <= width - k then |key| else width - k;
            ShiftLeft(Widen(key, SIZE_T), k)[..width] == ShiftLeft(Widen(key[..n], width), k)
  {
    var n := if |key| <= width - k then |key| else width - k;
    var a, b := ShiftLeft(Widen(key, SIZE_T), k)[..width], ShiftLeft(Widen(key[..n], width), k);
    forall i | 0 <= i < width ensures a[i] == b[i] {
      if i >= k {
        assert a[i] == Widen(key, SIZE_T)[i - k] && b[i] == Widen(key[..n], width)[i - k];
      }
    }
    assert a == b;
  }

  /** get_safe: assembles `size` bytes one by one. */
  method GetSafe(key: seq<Byte>, size: nat) returns (part: Word)
    requires size <= |key| && size <= SIZE_T
    ensures part == Widen(key[..size], SIZE_T)
  {
    part := Zeros(SIZE_T);
    assert key[..0] == [];
    for i := 0 to size
      invariant part == Widen(key[..i], SIZE_T)
    {
      OrAbove(key[..i], [key[i]], SIZE_T);
      assert key[..i + 1] == key[..i] + [key[i]];
      part := Or(part, ShiftLeft(Widen([key[i]], SIZE_T), i));
    }
  }

  // ---------------------------------------------------------------- the word sequence

  /** The whole words of a byte sequence. */
  function Blocks(s: seq<Byte>, width: nat): seq<Word>
    requires width > 0
  {
    if |s| < width then [] else [s[..width]] + Blocks(s[width..], width)
  }

  /** The bytes that do not fill a word. */
  function Left(s: seq<Byte>, width: nat): (r: seq<Byte>)
    requires width > 0
    ensures |r| < width && |r| <= |s|
  {
    if |s| < width then s else Left(s[width..], width)
  }

  function Flat(chunks: seq<seq<Byte>>): seq<Byte>
  {
    if chunks == [] then [] else Flat(chunks[..|chunks| - 1]) + chunks[|chunks| - 1]
  }

  /** Words are cut from the left, so a suffix only meets what was left over. */
  lemma {:induction false} BlocksAppend(s: seq<Byte>, d: seq<Byte>, width: nat)
    requires width > 0
    ensures Blocks(s + d, width) == Blocks(s, width) + Blocks(Left(s, width) + d, width)
    ensures Left(s + d, width) == Left(Left(s, width) + d, width)
    decreases |s|
  {
    if |s| < width {
      assert Blocks(s, width) == [];
    } else {
      BlocksAppend(s[width..], d, width);
      assert (s + d)[..width] == s[..width];
      assert (s + d)[width..] == s[width..] + d;
    }
  }

  /** Blocks and remainder determine the bytes, and are as long as division says. */
  lemma {:induction false} BlocksAreTheBytes(s: seq<Byte>, width: nat)
    requires width > 0
    ensures s == Joined(Blocks(s, width)) + Left(s, width)
    ensures |s| == |Blocks(s, width)| * width + |Left(s, width)|
    ensures forall i :: 0 <= i < |Blocks(s, width)| ==> |Blocks(s, width)[i]| == width
    decreases |s|
  {
    BlockLengths(s, width);
    if |s| >= width {
      BlocksAreTheBytes(s[width..], width);
      var b := Blocks(s[width..], width);
      assert Blocks(s, width) == [s[..width]] + b && Left(s, width) == Left(s[width..], width);
      JoinedFront(s[..width], b);
      hide Blocks, Left, Joined;
      Cut(s, width, Joined(b), Left(s, width));
    }
  }

  lemma {:induction false} BlockLengths(s: seq<Byte>, width: nat)
    requires width > 0
    ensures |s| == |Blocks(s, width)| * width + |Left(s, width)|
    ensures forall i :: 0 <= i < |Blocks(s, width)| ==> |Blocks(s, width)[i]| == width
    decreases |s|
  {
    if |s| >= width {
      BlockLengths(s[width..], width);
      var n := |Blocks(s[width..], width)|;
      assert (n + 1) * width == n * width + width;
    }
  }

  function Joined(words: seq<Word>): seq<Byte>
  {
    if words == [] then [] else words[0] + Joined(words[1..])
  }

  lemma Cut(s: seq<Byte>, n: nat, b: seq<Byte>, c: seq<Byte>)
    requires n <= |s| && s[n..] == b + c
    ensures s == s[..n] + b + c
  {
    assert s == s[..n] + s[n..];
  }

  lemma JoinedFront(w: Word, words: seq<Word>)
    ensures Joined([w] + words) == w + Joined(words)
  {
    assert ([w] + words)[1..] == words;
  }

  // ---------------------------------------------------------------- the mixer

  /** mix_(key) on its state, and the finalizing mix_(count, tail, size). */
  datatype Mixer<!S> = Mixer(step: (S, Word) -> S, finish: (S, nat, Word, nat) -> nat)

  function Fold<S>(m: Mixer<S>, seed: S, words: seq<Word>): S
  {
    if words == [] then seed else Fold(m, m.step(seed, words[0]), words[1..])
  }

  lemma {:induction false} FoldAppend<S>(m: Mixer<S>, seed: S, a: seq<Word>, b: seq<Word>)
    ensures Fold(m, seed, a + b) == Fold(m, Fold(m, seed, a), b)
  {
    if a == [] {
      assert a + b == b;
    } else {
      FoldAppend(m, m.step(seed, a[0]), a[1..], b);
      assert (a + b)[1..] == a[1..] + b;
    }
  }

  /** 2 to the number of bits of Calc. */
  function Modulus(width: nat): (m: nat)
    ensures m > 0
  {
    if width == 4 then 0x1_0000_0000 else 0x1_0000_0000_0000_0000
  }

  lemma ModAdd(a: nat, b: nat, m: nat)
    requires m > 0
    ensures (a % m + b) % m == (a + b) % m
  {
    var x := a % m + b;
    var q, r := x / m, x % m;
    assert a + b == (a / m + q) * m + r by {
      assert a == a / m * m + a % m && x == q * m + r;
      assert (a / m + q) * m == a / m * m + q * m;
    }
    Quotient(a + b, m, a / m + q, r);
  }

  lemma Quotient(n: nat, m: nat, q: nat, r: nat)
    requires m > 0 && n == q * m + r && r < m
    ensures n % m == r
  {
    var q' := n / m;
    if q < q' {
      MulLess(q, q', m);
    } else if q' < q {
      MulLess(q', q, m);
    }
  }

  lemma MulLess(a: nat, b: nat, m: nat)
    requires a < b
    ensures a * m + m <= b * m
  {
    var d := b - a - 1;
    assert d * m >= 0;
    assert b * m == (a + 1 + d) * m == a * m + m + d * m;
  }

  // ---------------------------------------------------------------- the aggregator

  /** The value finalize() returns once exactly the bytes s were added. */
  function Hash<S>(m: Mixer<S>, seed: S, s: seq<Byte>, width: nat): nat
    requires width > 0
  {
    m.finish(Fold(m, seed, Blocks(s, width)), |Left(s, width)|, Widen(Left(s, width), width), |s| % Modulus(width))
  }

  /** What adding `key` after s must lead to, in terms of what s left over. */
  lemma FirstBlock<S>(m: Mixer<S>, t: seq<Byte>, width: nat)
    requires width > 0
    ensures if |t| < width then
              Left(t, width) == t && forall x :: Fold(m, x, Blocks(t, width)) == x
            else
              && Left(t, width) == Left(t[width..], width)
              && forall x :: Fold(m, x, Blocks(t, width)) == Fold(m, m.step(x, t[..width]), Blocks(t[width..], width))
  {
    if |t| >= width {
      assert Blocks(t, width)[1..] == Blocks(t[width..], width);
    }
  }

  lemma Continue<S>(m: Mixer<S>, seed: S, s: seq<Byte>, key: seq<Byte>, width: nat)
    requires width > 0
    ensures var r := Left(s, width);
            && Left(s + key, width) == Left(r + key, width)
            && Fold(m, seed, Blocks(s + key, width)) == Fold(m, Fold(m, seed, Blocks(s, width)), Blocks(r + key, width))
            && (if |r + key| < width then
                  Left(r + key, width) == r + key && forall x :: Fold(m, x, Blocks(r + key, width)) == x
                else
                  && Left(r + key, width) == Left((r + key)[width..], width)
                  && forall x ::
                       Fold(m, x, Blocks(r + key, width)) ==
                       Fold(m, m.step(x, (r + key)[..width]), Blocks((r + key)[width..], width)))
  {
    hide Blocks, Left, Fold;
    var r := Left(s, width);
    BlocksAppend(s, key, width);
    FoldAppend(m, seed, Blocks(s, width), Blocks(r + key, width));
    FirstBlock(m, r + key, width);
  }

  lemma TailIs(data: seq<Byte>, width: nat)
    requires |data| < width <= SIZE_T
    ensures Widen(data, SIZE_T)[..width] == Widen(data, width)
    ensures data == [] ==> Widen(data, width) == Zeros(width)
  {
  }

  class Aggregator<S> {
    const mixer: Mixer<S>
    const seed: S
    const width: nat  // sizeof(Calc)
    var count: nat
    var tail: Word
    var size: nat
    var mix: S

    /** The state is the one that belongs to the bytes added so far. */
    ghost predicate Absorbed(s: seq<Byte>)
      reads this
    {
      && (width == 4 || width == 8)
      && count == |Left(s, width)|
      && tail == Widen(Left(s, width), width)
      && size == |s| % Modulus(width)
      && mix == Fold(mixer, seed, Blocks(s, width))
    }

    constructor (mixer: Mixer<S>, seed: S, width: nat)
      requires width == 4 || width == 8
      ensures Absorbed([]) && this.mixer == mixer && this.seed == seed && this.width == width
    {
      this.mixer := mixer;
      this.seed := seed;
      this.width := width;
      count := 0;
      tail := Zeros(width);
      size := 0;
      mix := seed;
    }

    /** Completes the word begun by earlier calls, or only extends the tail (`done`). */
    method FillTail(key: seq<Byte>, ghost r: seq<Byte>) returns (rest: seq<Byte>, done: bool)
      requires width == 4 || width == 8
      requires r != [] || |key| < width
      requires |r| < width && count == |r| && tail == Widen(r, width)
      modifies this`count, this`tail, this`mix
      ensures done <==> |r| + |key| < width
      ensures done ==> rest == [] && count == |r + key| && tail == Widen(r + key, width) && mix == old(mix)
      ensures !done ==> count == 0 && tail == Zeros(width)
      ensures !done ==> |r + key| >= width && rest == (r + key)[width..]
      ensures !done ==> mix == mixer.step(old(mix), (r + key)[..width])
    {
      hide Widen, ShiftLeft, Or;
      var len := |key|;
      var required := width - count;
      if required <= len {
        var bits;
        if len < width {
          bits := GetSafe(key, required);
          ShiftedRead(key[..required], count, width);
          assert key[..required][..required] == key[..required];
        } else {
          bits := Widen(key[..width], SIZE_T);
          ShiftedRead(key[..width], count, width);
          assert key[..width][..required] == key[..required];
        }
        var shifted := ShiftLeft(bits, count)[..width];
        OrAbove(r, key[..required], width);
        WidenFull(r + key[..required]);
        assert r + key[..required] == (r + key)[..width] && key[required..] == (r + key)[width..];
        mix := mixer.step(mix, Or(tail, shifted));
        tail := Zeros(width);
        count := 0;
        return key[required..], false;
      }
      var bits := GetSafe(key, len);
      var shifted := ShiftLeft(bits, count)[..width];
      assert key[..len] == key;
      ShiftedRead(key, count, width);
      OrAbove(r, key, width);
      tail := Or(tail, shifted);
      count := count + len;
      return [], true;
    }

    /** The loop over whole words; `rest` is what it leaves. */
    method MixWords(key: seq<Byte>) returns (rest: seq<Byte>)
      requires width > 0
      modifies this`mix
      ensures mix == Fold(mixer, old(mix), Blocks(key, width)) && rest == Left(key, width)
    {
      rest := key;
      while |rest| >= width
        invariant Fold(mixer, mix, Blocks(rest, width)) == Fold(mixer, old(mix), Blocks(key, width))
        invariant Left(rest, width) == Left(key, width)
      {
        mix := mixer.step(mix, rest[..width]);
        rest := rest[width..];
      }
    }

    /** add(key, len); `s` are the bytes added before. */
    method Add(key: seq<Byte>, ghost s: seq<Byte>)
      requires Absorbed(s)
      modifies this
      ensures Absorbed(s + key)
    {
      hide Modulus, Widen, Fold, Blocks, Left;
      ghost var r := Left(s, width);
      Continue(mixer, seed, s, key, width);
      ModAdd(|s|, |key|, Modulus(width));
      if key == [] {
        assert s + key == s;
        return;
      }
      size := (size + |key|) % Modulus(width);

      var data := key;
      if |key| < width || count != 0 {
        var done;
        data, done := FillTail(key, r);
        if done {
          return;
        }
      } else {
        assert r + key == key;
      }
      data := MixWords(data);
      if data != [] {
        var bits := GetSafe(data, |data|);
        assert data[..|data|] == data;
        tail := bits[..width];
        count := |data|;
      }
      TailIs(data, width);
    }

    method Finalize(ghost s: seq<Byte>) returns (hash: nat)
      requires Absorbed(s)
      ensures hash == Hash(mixer, seed, s, width)
    {
      hash := mixer.finish(mix, count, tail, size);
    }
  }

  // ---------------------------------------------------------------- by positions alone

  function Pow256(n: nat): nat
  {
    if n == 0 then 1 else 256 * Pow256(n - 1)
  }

  /** The states of the mixer when it is given the words s[0..width], s[width..2 * width] and so on. */
  ghost predicate Mixes<S>(m: Mixer<S>, seed: S, s: seq<Byte>, width: nat, states: seq<S>)
    requires width > 0
  {
    && |states| == |s| / width + 1 && states[0] == seed
    && forall i :: 0 <= i < |s| / width ==>
         IsWord(s, i, width) && states[i + 1] == m.step(states[i], s[i * width..(i + 1) * width])
  }

  predicate IsWord(s: seq<Byte>, i: nat, width: nat)
  {
    0 <= i * width <= (i + 1) * width <= |s|
  }

  lemma {:induction false} BlockAt(s: seq<Byte>, width: nat, i: nat)
    requires width > 0 && i < |Blocks(s, width)|
    ensures IsWord(s, i, width) && Blocks(s, width)[i] == s[i * width..(i + 1) * width]
    decreases |s|
  {
    if i > 0 {
      BlockAt(s[width..], width, i - 1);
      assert i * width == (i - 1) * width + width && (i + 1) * width == i * width + width;
    }
  }

  lemma {:induction false} LeftAt(s: seq<Byte>, width: nat)
    requires width > 0
    ensures Left(s, width) == s[|s| - |Left(s, width)|..]
    decreases |s|
  {
    if |s| >= width {
      LeftAt(s[width..], width);
    }
  }

  lemma Lengths(s: seq<Byte>, width: nat)
    requires width > 0
    ensures |Blocks(s, width)| == |s| / width && |Left(s, width)| == |s| % width
  {
    BlockLengths(s, width);
    var n, q, r := |s|, |Blocks(s, width)|, |Left(s, width)|;
    Quotient(n, width, q, r);
    Exact(n, width, q, r);
  }

  lemma Exact(n: nat, m: nat, q: nat, r: nat)
    requires m > 0 && n == q * m + r && r == n % m
    ensures q == n / m
  {
    var q' := n / m;
    assert n == q' * m + n % m;
    if q < q' {
      MulLess(q, q', m);
    } else if q' < q {
      MulLess(q', q, m);
    }
  }

  lemma {:induction false} FoldSteps<S>(m: Mixer<S>, words: seq<Word>, states: seq<S>)
    requires |states| == |words| + 1 && forall i :: 0 <= i < |words| ==> states[i + 1] == m.step(states[i], words[i])
    ensures states[|words|] == Fold(m, states[0], words)
    decreases |words|
  {
    if words != [] {
      assert states[0 + 1] == m.step(states[0], words[0]);
      forall i | 0 <= i < |words| - 1 ensures states[1..][i + 1] == m.step(states[1..][i], words[1..][i]) {
        assert states[i + 1 + 1] == m.step(states[i + 1], words[i + 1]);
      }
      FoldSteps(m, words[1..], states[1..]);
    }
  }

  lemma ModulusIsPower(width: nat)
    requires width == 4 || width == 8
    ensures Modulus(width) == Pow256(width)
  {
    assert Pow256(4) == 256 * (256 * (256 * (256 * 1)));
    assert Pow256(8) == 256 * (256 * (256 * (256 * Pow256(4))));
  }

  /**
    The hash of s: the mixer is given the words of s in order, then the number of bytes that are
    left over, those bytes filled up with zeros, and the number of all bytes modulo the word size.
   */
  lemma HashByPositions<S>(m: Mixer<S>, seed: S, s: seq<Byte>, width: nat, states: seq<S>)
    requires (width == 4 || width == 8) && Mixes(m, seed, s, width, states)
    ensures var rest := |s| % width;
            Hash(m, seed, s, width) ==
              m.finish(states[|s| / width], rest, s[|s| - rest..] + seq(width - rest, _ => 0), |s| % Pow256(width))
  {
    hide Blocks, Left, Fold, Modulus, Pow256;
    var words, rest := Blocks(s, width), |s| % width;
    Lengths(s, width);
    LeftAt(s, width);
    ModulusIsPower(width);
    forall i | 0 <= i < |words| ensures states[i + 1] == m.step(states[i], words[i]) {
      BlockAt(s, width, i);
    }
    FoldSteps(m, words, states);
    assert Widen(Left(s, width), width) == s[|s| - rest..] + seq(width - rest, _ => 0);
  }

  /** Every way of cutting a byte sequence into add() calls gives the same hash, whatever the mixer. */
  method HashChunks<S>(mixer: Mixer<S>, seed: S, width: nat, chunks: seq<seq<Byte>>) returns (hash: nat)
    requires width == 4 || width == 8
    ensures hash == Hash(mixer, seed, Flat(chunks), width)
  {
    var a := new Aggregator(mixer, seed, width);
    for i := 0 to |chunks|
      invariant fresh(a) && a.mixer == mixer && a.seed == seed && a.width == width
      invariant a.Absorbed(Flat(chunks[..i]))
    {
      assert chunks[..i + 1][..i] == chunks[..i];
      a.Add(chunks[i], Flat(chunks[..i]));
    }
    assert chunks[..|chunks|] == chunks;
    hash := a.Finalize(Flat(chunks));
  }
}
