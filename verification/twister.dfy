/**
 * The 32-bit Mersenne Twister (MT19937) behind the weighted selector.
 *
 * The register is a 624-word array rewritten in place and `mti` is the cursor
 * of the next word to hand out. Every word operation is 32-bit, so words are
 * `bv32` and arithmetic on them wraps modulo 2^32.
 */
module Twister {

  const N: nat := 624
  const M: nat := 397
  const MATRIX_A: bv32 := 0x9908_b0df
  const UPPER_MASK: bv32 := 0x8000_0000
  const LOWER_MASK: bv32 := 0x7fff_ffff
  const SEED_MULTIPLIER: bv32 := 1812433253
  const TWO_POW_32: int := 0x1_0000_0000

  /** `s >>> 0` for an integral seed: the one value in [0, 2^32) that is
      congruent to `s` modulo 2^32. */
  function Low32(s: int): (r: nat)
    ensures r < TWO_POW_32
    ensures (s - r) % TWO_POW_32 == 0
  {
    s % TWO_POW_32
  }

  /** One step of the seeding recurrence, multiplication wrapping modulo 2^32. */
  function SeedWord(prev: bv32, i: nat): bv32
    requires i < N
  {
    SEED_MULTIPLIER * (prev ^ (prev >> 30)) + i as bv32
  }

  /** `r` is the register produced by seeding with `s`. */
  ghost predicate SeededBy(s: int, r: seq<bv32>)
  {
    && |r| == N
    && r[0] == Low32(s) as bv32
    && forall i :: 1 <= i < N ==> r[i] == SeedWord(r[i - 1], i)
  }

  lemma {:induction false} SeededWordsAgree(s: int, a: seq<bv32>, b: seq<bv32>, i: nat)
    requires SeededBy(s, a) && SeededBy(s, b) && i < N
    ensures a[i] == b[i]
  {
    if i > 0 {
      SeededWordsAgree(s, a, b, i - 1);
    }
  }

  /** The seed alone determines the whole register. */
  lemma SeedDeterminesRegister(s: int, a: seq<bv32>, b: seq<bv32>)
    requires SeededBy(s, a) && SeededBy(s, b)
    ensures a == b
  {
    forall i | 0 <= i < N
      ensures a[i] == b[i]
    {
      SeededWordsAgree(s, a, b, i);
    }
  }

  // ---------------------------------------------------------------------------
  // Regeneration ("twist")

  /** The twist of one position: the top bit of `cur` and the low 31 bits of
      `next`, shifted right once, conditionally xored with MATRIX_A, then xored
      with the word `far` positions ahead. */
  function Mix(cur: bv32, next: bv32, far: bv32): bv32
  {
    var y := (cur & UPPER_MASK) | (next & LOWER_MASK);
    far ^ (y >> 1) ^ (if y & 1 == 1 then MATRIX_A else 0)
  }

  /** The twist of one position reads only the top bit of `cur` and the low
      31 bits of `next`, and the far word enters only through the final xor. */
  lemma MixSplice(cur: bv32, next: bv32, far: bv32)
    ensures Mix(cur, next, far) == Mix(cur & UPPER_MASK, next & LOWER_MASK, far)
    ensures Mix(cur, next, far) == far ^ Mix(cur, next, 0)
  {}

  /** MATRIX_A has its top bit set, so the top bit of the twisted word (with
      the far word xored back out) is the low bit of `next`: it records
      whether MATRIX_A was applied, since the shifted splice has top bit 0. */
  lemma MixTopBit(cur: bv32, next: bv32, far: bv32)
    ensures (Mix(cur, next, far) ^ far) & UPPER_MASK == (if next & 1 == 1 then UPPER_MASK else 0)
  {}

  /** `j mod N` for the indices a pass reads. */
  function Wrap(j: nat): (w: nat)
    requires j < 2 * N
    ensures w < N
  {
    if j < N then j else j - N
  }

  /** The register after the first `k` steps of one in-place pass over
      positions 0 .. N-1, where position `j` is rewritten from the current
      contents at `j`, `Wrap(j + 1)` and `Wrap(j + M)`. */
  function TwistPrefix(s: seq<bv32>, k: nat): (r: seq<bv32>)
    requires |s| == N && k <= N
    ensures |r| == N
    decreases k
  {
    if k == 0 then s
    else
      var t := TwistPrefix(s, k - 1);
      t[k - 1 := Mix(t[k - 1], t[Wrap(k)], t[Wrap(k - 1 + M)])]
  }

  /** The register after a complete regeneration. */
  function Twisted(s: seq<bv32>): (r: seq<bv32>)
    requires |s| == N
    ensures |r| == N
  {
    TwistPrefix(s, N)
  }

  lemma {:induction false} TwistPrefixUntouched(s: seq<bv32>, k: nat, i: nat)
    requires |s| == N && k <= i < N
    ensures TwistPrefix(s, k)[i] == s[i]
    decreases k
  {
    if k > 0 {
      TwistPrefixUntouched(s, k - 1, i);
    }
  }

  lemma {:induction false} TwistPrefixSettled(s: seq<bv32>, j: nat, k: nat, i: nat)
    requires |s| == N && i < j <= k <= N
    ensures TwistPrefix(s, k)[i] == TwistPrefix(s, j)[i]
    decreases k
  {
    if k > j {
      TwistPrefixSettled(s, j, k - 1, i);
    }
  }

  /** Midway through the pass, positions below `k` already hold their final
      value and the others still hold the old one. */
  lemma TwistPrefixAt(s: seq<bv32>, k: nat, i: nat)
    requires |s| == N && k <= N && i < N
    ensures TwistPrefix(s, k)[i] == if i < k then Twisted(s)[i] else s[i]
  {
    if i < k {
      TwistPrefixSettled(s, k, N, i);
    } else {
      TwistPrefixUntouched(s, k, i);
    }
  }

  /** The in-place pass is the MT19937 linear recurrence: reading the old
      register followed by the new one as a single stream `x`, every new word
      is x[k + N] == Mix(x[k], x[k + 1], x[k + M]). */
  lemma TwistIsRecurrence(s: seq<bv32>, k: nat)
    requires |s| == N && k < N
    ensures var x := s + Twisted(s);
            x[k + N] == Mix(x[k], x[k + 1], x[k + M])
  {
    var x := s + Twisted(s);
    var t := TwistPrefix(s, k);
    TwistPrefixSettled(s, k + 1, N, k);
    assert x[k + N] == TwistPrefix(s, k + 1)[k];
    TwistPrefixAt(s, k, k);
    TwistPrefixAt(s, k, Wrap(k + 1));
    TwistPrefixAt(s, k, Wrap(k + M));
  }

  // ---------------------------------------------------------------------------
  // Output

  /** Tempering: the fixed bit mixing applied to a register word on output. */
  function Temper(y0: bv32): bv32
  {
    var y1 := y0 ^ (y0 >> 11);
    var y2 := y1 ^ ((y1 << 7) & 0x9d2c_5680);
    var y3 := y2 ^ ((y2 << 15) & 0xefc6_0000);
    y3 ^ (y3 >> 18)
  }

  /** Reference values of MT19937 for the seed 5489: words 1 to 5 of the
      seeded register. */
  lemma SeedReference()
    ensures SeedWord(5489, 1) == 1301868182
    ensures SeedWord(1301868182, 2) == 2938499221
    ensures SeedWord(2938499221, 3) == 2950281878
    ensures SeedWord(2950281878, 4) == 1875628136
    ensures SeedWord(1875628136, 5) == 751856242
  {}

  /** Reference values of MT19937 for the seed 5489: the seeded words 0 to 5
      and 397 to 401 give, through one twist step each and tempering, the
      first five outputs 3499211612, 581869302, 3890346734, 3586334585 and
      545404204 of the reference implementation. */
  lemma TemperReference()
    ensures Temper(Mix(5489, 1301868182, 3183906156)) == 3499211612
    ensures Temper(Mix(1301868182, 2938499221, 1728556020)) == 581869302
    ensures Temper(Mix(2938499221, 2950281878, 3502241336)) == 3890346734
    ensures Temper(Mix(2950281878, 1875628136, 3055466967)) == 3586334585
    ensures Temper(Mix(1875628136, 751856242, 1013272474)) == 545404204
  {}

  /** An output word scaled into the unit interval by 2^-32. */
  function Scale(w: bv32): (r: real)
    ensures 0.0 <= r < 1.0
    ensures r * 4294967296.0 == w as int as real
  {
    (w as int) as real * (1.0 / 4294967296.0)
  }

  // ---------------------------------------------------------------------------
  // Abstract generator state and the word stream it produces

  datatype GenState = GenState(mt: seq<bv32>, mti: nat)
  {
    predicate Valid()
    {
      |mt| == N && mti <= N
    }
  }

  datatype Drawn = Drawn(word: bv32, next: GenState)

  /** One draw: regenerate when the cursor has reached N, then temper the word
      at the cursor and advance the cursor by one. */
  function Next(st: GenState): (d: Drawn)
    requires st.Valid()
    ensures d.next.Valid()
    ensures d.next.mti == if st.mti == N then 1 else st.mti + 1
    ensures d.next.mt == if st.mti == N then Twisted(st.mt) else st.mt
    ensures d.word == Temper(d.next.mt[d.next.mti - 1])
  {
    var mt := if st.mti >= N then Twisted(st.mt) else st.mt;
    var i := if st.mti >= N then 0 else st.mti;
    Drawn(Temper(mt[i]), GenState(mt, i + 1))
  }

  /** The first `n` words drawn from `st`. */
  function Stream(st: GenState, n: nat): (ws: seq<bv32>)
    requires st.Valid()
    ensures |ws| == n
    decreases n
  {
    if n == 0 then []
    else
      var d := Next(st);
      [d.word] + Stream(d.next, n - 1)
  }

  lemma StreamTail(st: GenState, n: nat, i: nat)
    requires st.Valid() && 0 < i < n
    ensures Stream(st, n)[i] == Stream(Next(st).next, n - 1)[i - 1]
  {
  }

  /** Between two regenerations the stream is the tempered register, read in
      order from the cursor. */
  lemma {:induction false} StreamReadsRegister(st: GenState, n: nat, i: nat)
    requires st.Valid() && st.mti + n <= N && i < n
    ensures Stream(st, n)[i] == Temper(st.mt[st.mti + i])
    decreases n
  {
    if i > 0 {
      StreamTail(st, n, i);
      StreamReadsRegister(Next(st).next, n - 1, i - 1);
    }
  }

  lemma NextRegenerates(r: seq<bv32>)
    requires |r| == N
    ensures Next(GenState(r, N)) == Drawn(Temper(Twisted(r)[0]), GenState(Twisted(r), 1))
  {
  }

  lemma StreamAfterRegeneration(r: seq<bv32>, n: nat, i: nat)
    requires |r| == N && 0 < i < n <= N
    ensures Stream(GenState(r, N), n)[i] == Stream(GenState(Twisted(r), 1), n - 1)[i - 1]
  {
  }

  /** A generator whose cursor has reached N (as it has right after seeding)
      regenerates on its next draw, and its next `n <= N` words are the
      tempered regenerated register in order. */
  lemma BlockAfterRegeneration(r: seq<bv32>, n: nat, i: nat)
    requires |r| == N && i < n <= N
    ensures Stream(GenState(r, N), n)[i] == Temper(Twisted(r)[i])
  {
    if i == 0 {
      NextRegenerates(r);
    } else {
      var t := Twisted(r);
      StreamAfterRegeneration(r, n, i);
      StreamReadsRegister(GenState(t, 1), n - 1, i - 1);
      assert GenState(t, 1).mt[GenState(t, 1).mti + (i - 1)] == t[i];
    }
  }

  /** Two generators seeded with the same value produce the same words. */
  lemma SameSeedSameStream(s: int, a: seq<bv32>, b: seq<bv32>, n: nat)
    requires SeededBy(s, a) && SeededBy(s, b)
    ensures Stream(GenState(a, N), n) == Stream(GenState(b, N), n)
  {
    SeedDeterminesRegister(s, a, b);
  }

  // ---------------------------------------------------------------------------
  // The generator object

  class MersenneTwister {
    var mt: array<bv32>
    var mti: nat

    ghost predicate Valid()
      reads this
    {
      mt.Length == N && mti <= N
    }

    ghost function Snapshot(): (st: GenState)
      reads this, mt
    {
      GenState(mt[..], mti)
    }

    /** A generator seeded with `seed` (the clock reading when the caller
        supplies none). */
    constructor (seed: int)
      ensures Valid() && fresh(mt)
      ensures SeededBy(seed, mt[..]) && mti == N
    {
      mt := new bv32[N];
      mti := N + 1;
      new;
      InitGenrand(seed);
    }

    /** Seeding: word 0 is the seed modulo 2^32 and each later word follows
        from its predecessor; the cursor ends at N. */
    method InitGenrand(s: int)
      requires mt.Length == N
      modifies this, mt
      ensures Valid() && mt == old(mt)
      ensures SeededBy(s, mt[..]) && mti == N
    {
      mt[0] := Low32(s) as bv32;
      mti := 1;
      while mti < N
        invariant mt == old(mt) && 1 <= mti <= N
        invariant mt[0] == Low32(s) as bv32
        invariant forall i :: 1 <= i < mti ==> mt[i] == SeedWord(mt[i - 1], i)
      {
        mt[mti] := SeedWord(mt[mti - 1], mti);
        mti := mti + 1;
      }
    }

    /** Regenerates the whole register in place, in three loops that together
        make one pass over positions 0 .. N-1, and resets the cursor. */
    method Twist()
      requires Valid()
      modifies this, mt
      ensures Valid() && mt == old(mt)
      ensures mt[..] == Twisted(old(mt[..])) && mti == 0
    {
      ghost var s := mt[..];
      var kk := 0;
      while kk < N - M
        invariant mt == old(mt) && 0 <= kk <= N - M
        invariant mt[..] == TwistPrefix(s, kk)
      {
        mt[kk] := Mix(mt[kk], mt[kk + 1], mt[kk + M]);
        kk := kk + 1;
      }
      while kk < N - 1
        invariant mt == old(mt) && N - M <= kk <= N - 1
        invariant mt[..] == TwistPrefix(s, kk)
      {
        mt[kk] := Mix(mt[kk], mt[kk + 1], mt[kk + M - N]);
        kk := kk + 1;
      }
      assert Wrap(N) == 0 && Wrap(N - 1 + M) == M - 1;
      mt[N - 1] := Mix(mt[N - 1], mt[0], mt[M - 1]);
      mti := 0;
    }

    /** Draws the next 32-bit word: regenerates when the cursor has reached N,
        takes the word at the cursor, advances the cursor and tempers the word. */
    method RandomInt() returns (y: bv32)
      requires Valid()
      modifies this, mt
      ensures Valid() && mt == old(mt)
      ensures var d := Next(old(Snapshot())); y == d.word && mt[..] == d.next.mt && mti == d.next.mti
    {
      if mti >= N {
        Twist();
      }
      y := mt[mti];
      mti := mti + 1;
      y := Temper(y);
    }

    /** Draws the next word scaled into [0, 1). */
    method Random() returns (r: real)
      requires Valid()
      modifies this, mt
      ensures Valid() && mt == old(mt)
      ensures 0.0 <= r < 1.0
      ensures var d := Next(old(Snapshot())); r == Scale(d.word) && mt[..] == d.next.mt && mti == d.next.mti
    {
      var w := RandomInt();
      r := Scale(w);
    }
  }

  /** Two generators built from the same seed hand out the same `n` words. */
  method SameSeedSameDraws(seed: int, n: nat) returns (a: seq<bv32>, b: seq<bv32>)
    ensures |a| == n && a == b
  {
    var g1 := new MersenneTwister(seed);
    var g2 := new MersenneTwister(seed);
    SeedDeterminesRegister(seed, g1.mt[..], g2.mt[..]);
    a, b := [], [];
    while |a| < n
      invariant fresh(g1) && fresh(g1.mt) && fresh(g2) && fresh(g2.mt)
      invariant g1.Valid() && g2.Valid() && g1.mt != g2.mt
      invariant g1.mt[..] == g2.mt[..] && g1.mti == g2.mti
      invariant a == b && |a| <= n
    {
      var x := g1.RandomInt();
      var y := g2.RandomInt();
      a, b := a + [x], b + [y];
    }
  }
}
