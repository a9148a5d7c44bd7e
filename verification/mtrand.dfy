/**
 * mtrand/mtrand.go: the 32-bit Mersenne Twister MT19937 with a known seed.
 * The state is 624 words updated in place, and `i` is the index of the next
 * word to temper; all arithmetic is on `uint32`, here `bv32`.
 */
module MersenneTwister {

  /** Number of state words. */
  const N: int := 624

  /** Offset of the word each twist step mixes in. */
  const M: int := 397

  /** A generator state as values: the words and the next index. */
  datatype Gen = Gen(words: seq<bv32>, i: int)

  ghost predicate ValidGen(g: Gen)
  {
    |g.words| == N && 0 <= g.i <= N
  }

  // ---------------------------------------------------------------------
  // Seeding

  /** The seeding step: word i from word i - 1 and uint32(i). */
  function SeedStep(prev: bv32, ui: bv32): bv32
  {
    1812433253 * (prev ^ (prev >> 30)) + ui
  }

  /** uint32(j): j counted up in 32-bit arithmetic, so that the seeding
      recurrence stays within bit-vectors. */
  function Index32(j: nat): bv32
  {
    if j == 0 then 0 else Index32(j - 1) + 1
  }

  /** Word j of the seeded state: the seed itself for j == 0, otherwise the
      seeding step applied to word j - 1 and uint32(j). */
  function SeedWord(seed: bv32, j: nat): bv32
  {
    if j == 0 then seed else SeedStep(SeedWord(seed, j - 1), Index32(j))
  }

  /** The first k words of the seeded state. */
  function SeedWords(seed: bv32, k: nat): (s: seq<bv32>)
    requires k <= N
    ensures |s| == k && forall j :: 0 <= j < k ==> s[j] == SeedWord(seed, j)
  {
    seq(k, j requires 0 <= j < k => SeedWord(seed, j))
  }

  /** The seeding loop of New, run on the array that becomes the state. */
  method SeedFill(a: array<bv32>, s: bv32)
    requires a.Length == N
    modifies a
    ensures forall j :: 0 <= j < N ==> a[j] == SeedWord(s, j)
  {
    a[0] := s;
    var ui: bv32 := 1;
    for k := 1 to N
      invariant ui == Index32(k)
      invariant forall j :: 0 <= j < k ==> a[j] == SeedWord(s, j)
    {
      assert a[k - 1] == SeedWord(s, k - 1);
      a[k] := SeedStep(a[k - 1], ui);
      assert a[k] == SeedWord(s, k);
      ui := ui + 1;
    }
  }

  // ---------------------------------------------------------------------
  // Twist

  /** The value one twist step stores: the upper bit of `hi` joined to the
      lower 31 bits of `lo`, shifted right, XORed into `far`, and XORed with
      0x9908b0df when the joined word is odd. */
  function TwistValue(far: bv32, hi: bv32, lo: bv32): bv32
  {
    var y := (hi & 0x8000_0000) | (lo & 0x7fff_ffff);
    var v := far ^ (y >> 1);
    if y % 2 != 0 then v ^ 0x9908_b0df else v
  }

  /** Twist step i on state t: word i with the next word, into the word M
      places on (indices modulo N). */
  function TwistWord(t: seq<bv32>, i: int): bv32
    requires |t| == N && 0 <= i < N
  {
    TwistValue(t[(i + M) % N], t[i], t[(i + 1) % N])
  }

  /** The state after the first k steps of `twist`, which rewrites the
      words in place in index order. */
  function TwistUpTo(s: seq<bv32>, k: nat): (t: seq<bv32>)
    requires |s| == N && k <= N
    ensures |t| == N
  {
    if k == 0 then s
    else
      var p := TwistUpTo(s, k - 1);
      p[k - 1 := TwistWord(p, k - 1)]
  }

  function Twist(s: seq<bv32>): (t: seq<bv32>)
    requires |s| == N
    ensures |t| == N
  {
    TwistUpTo(s, N)
  }

  /** Words at k and beyond are untouched by the first k steps. */
  lemma {:induction false} TwistUpToFrozen(s: seq<bv32>, k: nat, j: int)
    requires |s| == N && k <= j < N
    ensures TwistUpTo(s, k)[j] == s[j]
  {
    if k > 0 {
      TwistUpToFrozen(s, k - 1, j);
    }
  }

  /** A word below k keeps the value its own step gave it. */
  lemma {:induction false} TwistUpToSettled(s: seq<bv32>, k: nat, j: int)
    requires |s| == N && 0 <= j < k <= N
    ensures TwistUpTo(s, k)[j] == TwistUpTo(s, j + 1)[j]
  {
    if k > j + 1 {
      TwistUpToSettled(s, k - 1, j);
    }
  }

  /** The indices `twist` reads, modulo N, without the modulo. */
  lemma TwistIndices(i: int)
    requires 0 <= i < N
    ensures (i + M) % N == if i + M < N then i + M else i + M - N
    ensures (i + 1) % N == if i + 1 < N then i + 1 else 0
  {
  }

  /** Word i of the twisted state is step i applied to the words as they
      stood after the first i steps: word i itself is still the old one. */
  lemma TwistAt(s: seq<bv32>, i: int)
    requires |s| == N && 0 <= i < N
    ensures var p := TwistUpTo(s, i);
            Twist(s)[i] == TwistValue(p[(i + M) % N], s[i], p[(i + 1) % N])
  {
    TwistUpToSettled(s, N, i);
    TwistUpToFrozen(s, i, i);
  }

  /** The in-place order gives the MT19937 recurrence.  While i + 397 is
      below 624, word i of the new state combines old words i, i + 1 and
      i + 397. */
  lemma TwistRecurrenceLow(s: seq<bv32>, i: int)
    requires |s| == N && 0 <= i && i + M < N
    ensures Twist(s)[i] == TwistValue(s[i + M], s[i], s[i + 1])
  {
    TwistIndices(i);
    TwistAt(s, i);
    TwistUpToFrozen(s, i, i + 1);
    TwistUpToFrozen(s, i, i + M);
  }

  /** From i = 227 on, the third word is the already rewritten word i - 227. */
  lemma TwistRecurrenceHigh(s: seq<bv32>, i: int)
    requires |s| == N && N <= i + M && i + 1 < N
    ensures Twist(s)[i] == TwistValue(Twist(s)[i + M - N], s[i], s[i + 1])
  {
    TwistIndices(i);
    TwistAt(s, i);
    TwistUpToFrozen(s, i, i + 1);
    var j := i + M - N;
    TwistUpToSettled(s, i, j);
    TwistUpToSettled(s, N, j);
  }

  /** The last word wraps around to the new word 0. */
  lemma TwistRecurrenceLast(s: seq<bv32>)
    requires |s| == N
    ensures Twist(s)[N - 1] == TwistValue(Twist(s)[M - 1], s[N - 1], Twist(s)[0])
  {
    TwistIndices(N - 1);
    TwistAt(s, N - 1);
    TwistUpToSettled(s, N - 1, 0);
    TwistUpToSettled(s, N, 0);
    TwistUpToSettled(s, N - 1, M - 1);
    TwistUpToSettled(s, N, M - 1);
  }

  // ---------------------------------------------------------------------
  // Tempering

  /** The four xor-shift tempering steps of Next; `Untemper` undoes them,
      so distinct words give distinct outputs. */
  function Temper(x: bv32): (r: bv32)
    ensures Untemper(r) == x
  {
    var y1 := x ^ (x >> 11);
    var y2 := y1 ^ ((y1 << 7) & 0x9d2c_5680);
    var y3 := y2 ^ ((y2 << 15) & 0xefc6_0000);
    TemperStepsInvertible(x);
    TemperStepsInvertible(y1);
    TemperStepsInvertible(y2);
    TemperStepsInvertible(y3);
    y3 ^ (y3 >> 18)
  }

  /** The inverse of each tempering step, and of the four in turn. */
  function Undo11(y: bv32): bv32 { y ^ (y >> 11) ^ (y >> 22) }

  function Undo7(y: bv32): bv32
  {
    var a := y ^ ((y << 7) & 0x9d2c_5680);
    var b := y ^ ((a << 7) & 0x9d2c_5680);
    var c := y ^ ((b << 7) & 0x9d2c_5680);
    y ^ ((c << 7) & 0x9d2c_5680)
  }

  function Undo15(y: bv32): bv32 { y ^ ((y << 15) & 0xefc6_0000) }

  function Undo18(y: bv32): bv32 { y ^ (y >> 18) }

  function Untemper(r: bv32): bv32
  {
    Undo11(Undo7(Undo15(Undo18(r))))
  }

  /** Each tempering step is undone by the step below, so tempering loses
      no value: distinct words give distinct outputs. */
  lemma TemperStepsInvertible(x: bv32)
    ensures Undo11(x ^ (x >> 11)) == x
    ensures Undo7(x ^ ((x << 7) & 0x9d2c_5680)) == x
    ensures Undo15(x ^ ((x << 15) & 0xefc6_0000)) == x
    ensures Undo18(x ^ (x >> 18)) == x
  {
  }

  // ---------------------------------------------------------------------
  // The generator as values

  /** What Next does to a state: twist first when all 624 words are used,
      then temper the word at the index and advance it. */
  function Step(g: Gen): (r: (bv32, Gen))
    requires ValidGen(g)
    ensures ValidGen(r.1) && r.1.i >= 1
  {
    var w := if g.i >= N then Twist(g.words) else g.words;
    var k := if g.i >= N then 0 else g.i;
    (Temper(w[k]), Gen(w, k + 1))
  }

  /** The first n outputs from state g. */
  function Outputs(g: Gen, n: nat): (out: seq<bv32>)
    requires ValidGen(g)
    ensures |out| == n
    decreases n
  {
    if n == 0 then []
    else
      var (y, h) := Step(g);
      [y] + Outputs(h, n - 1)
  }

  /** Below index 624, Next does not twist. */
  lemma StepNoTwist(g: Gen)
    requires ValidGen(g) && g.i < N
    ensures Step(g) == (Temper(g.words[g.i]), Gen(g.words, g.i + 1))
  {
  }

  lemma OutputsFirst(g: Gen, n: nat)
    requires ValidGen(g) && n > 0
    ensures Outputs(g, n) == [Step(g).0] + Outputs(Step(g).1, n - 1)
  {
  }

  /** Below index 624, dropping the first output leaves the outputs of the
      state one index on. */
  lemma OutputsTail(g: Gen, n: nat)
    requires ValidGen(g) && g.i < N && n > 0
    ensures Outputs(g, n)[1..] == Outputs(Gen(g.words, g.i + 1), n - 1)
  {
    StepNoTwist(g);
    OutputsFirst(g, n);
  }

  /** Until the index reaches 624 the outputs are the tempered words from
      the index on, with no twist. */
  lemma {:induction false} OutputsBeforeTwist(g: Gen, n: nat)
    requires ValidGen(g) && g.i + n <= N
    ensures forall j :: 0 <= j < n ==> Outputs(g, n)[j] == Temper(g.words[g.i + j])
    decreases n
  {
    if n > 0 {
      var h := Gen(g.words, g.i + 1);
      OutputsTail(g, n);
      StepNoTwist(g);
      OutputsFirst(g, n);
      OutputsBeforeTwist(h, n - 1);
      forall j | 1 <= j < n
        ensures Outputs(g, n)[j] == Temper(g.words[g.i + j])
      {
        assert Outputs(g, n)[j] == Outputs(h, n - 1)[j - 1];
      }
    }
  }

  /** The output after the first N - g.i is the first word of the twisted state. */
  lemma OutputAtTwist(g: Gen)
    requires ValidGen(g)
    ensures Outputs(g, N - g.i + 1)[N - g.i] == Temper(Twist(g.words)[0])
    decreases N - g.i
  {
    if g.i < N {
      var h := Gen(g.words, g.i + 1);
      OutputsTail(g, N - g.i + 1);
      OutputAtTwist(h);
    } else {
      OutputsFirst(g, 1);
    }
  }

  /** A generator at index 0, as New leaves it, yields its tempered words,
      in order, for its first 624 outputs; the 625th comes from the first
      twisted word. */
  lemma FirstOutputs(words: seq<bv32>)
    requires |words| == N
    ensures var g := Gen(words, 0);
            && (forall j :: 0 <= j < N ==> Outputs(g, N)[j] == Temper(words[j]))
            && Outputs(g, N + 1)[N] == Temper(Twist(words)[0])
  {
    var g := Gen(words, 0);
    OutputsBeforeTwist(g, N);
    OutputAtTwist(g);
    assert N - g.i + 1 == N + 1 && N - g.i == N;
  }

  // ---------------------------------------------------------------------
  // The generator object

  class MT {
    var mt: array<bv32>
    var i: int

    ghost predicate Valid()
      reads this
    {
      mt.Length == N && 0 <= i <= N
    }

    /** The state as a value. */
    ghost function State(): Gen
      reads this, mt
    {
      Gen(mt[..], i)
    }

    /** New(seed): seed the words by the recurrence and start at index 0, so
        no twist happens before the first output.  A zero seed is replaced
        by `clock`, the low 32 bits of the current time in nanoseconds. */
    constructor (seed: bv32, clock: bv32)
      ensures Valid() && fresh(mt) && i == 0
      ensures mt[..] == SeedWords(if seed == 0 then clock else seed, N)
    {
      var s := if seed == 0 then clock else seed;
      var a := new bv32[N];
      SeedFill(a, s);
      assert a[..] == SeedWords(s, N);
      mt := a;
      i := 0;
    }

    /** twist: rewrite the words in place, in index order, and reset the index. */
    method TwistState() returns (r: int)
      requires Valid()
      modifies this, mt
      ensures Valid() && mt == old(mt)
      ensures mt[..] == Twist(old(mt[..]))
      ensures i == 0 && r == 0
    {
      for k := 0 to N
        invariant mt == old(mt)
        invariant mt[..] == TwistUpTo(old(mt[..]), k)
      {
        mt[k] := TwistValue(mt[(k + M) % N], mt[k], mt[(k + 1) % N]);
      }
      i := 0;
      r := i;
    }

    /** Next: twist only when the index has reached 624; return the tempered
        word at the index and advance the index by one. */
    method Next() returns (y: bv32)
      requires Valid()
      modifies this, mt
      ensures Valid() && mt == old(mt)
      ensures (y, State()) == Step(old(State()))
      ensures old(i) < N ==> mt[..] == old(mt[..]) && i == old(i) + 1 && y == Temper(mt[old(i)])
      ensures old(i) >= N ==> mt[..] == Twist(old(mt[..])) && i == 1 && y == Temper(mt[0])
    {
      var k := i;
      if k >= N {
        k := TwistState();
      }
      y := Temper(mt[k]);
      i := k + 1;
    }
  }

  /** n successive calls of Next. */
  method Draw(g: MT, n: nat) returns (out: seq<bv32>)
    requires g.Valid()
    modifies g, g.mt
    ensures g.Valid() && g.mt == old(g.mt)
    ensures out == Outputs(old(g.State()), n)
  {
    ghost var start := g.State();
    out := [];
    for k := 0 to n
      invariant g.Valid() && g.mt == old(g.mt)
      invariant out + Outputs(g.State(), n - k) == Outputs(start, n)
    {
      OutputsFirst(g.State(), n - k);
      var y := g.Next();
      out := out + [y];
    }
  }

  /** Two generators seeded with the same non-zero seed give the same
      outputs, whatever the clock reads: the outputs of the seeded state. */
  method SameSeedSameStream(seed: bv32, clock1: bv32, clock2: bv32, n: nat) returns (a: seq<bv32>, b: seq<bv32>)
    requires seed != 0
    ensures a == b
    ensures a == Outputs(Gen(SeedWords(seed, N), 0), n)
  {
    var g1 := new MT(seed, clock1);
    var g2 := new MT(seed, clock2);
    a := Draw(g1, n);
    b := Draw(g2, n);
  }
}
