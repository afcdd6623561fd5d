/** Groups of eight bits as groups of five, and back (internal/invitation/bech32m.go:105-129).

Both are told by the bits they spell: what regrouping makes of data has data's bits, grouped anew. */
module Regrouping {
  import opened Basics

  const TWO_64 := 0x1_0000_0000_0000_0000

  /** a shifted left by k, and right. */
  function Shl(a: nat, k: nat): nat { if k == 0 then a else 2 * Shl(a, k - 1) }
  function Shr(a: nat, k: nat): nat { if k == 0 then a else Shr(a / 2, k - 1) }

  /** The last k bits of v, the highest first. */
  function BitsOf(v: nat, k: nat): (b: seq<bool>)
    ensures |b| == k
  {
    if k == 0 then [] else BitsOf(v / 2, k - 1) + [v % 2 == 1]
  }

  /** The bits of groups of k bits. */
  function Bits(s: seq<nat>, k: nat): (b: seq<bool>)
    ensures |b| == Times(|s|, k)
  {
    if s == [] then [] else Bits(s[..|s| - 1], k) + BitsOf(s[|s| - 1], k)
  }

  /** n times k. */
  function Times(n: nat, k: nat): nat { if n == 0 then 0 else Times(n - 1, k) + k }

  lemma {:induction false} TimesIs(n: nat)
    ensures Times(n, 5) == 5 * n && Times(n, 8) == 8 * n
  {
    if n > 0 { TimesIs(n - 1); }
  }

  function Zeros(n: nat): seq<bool> { seq(n, _ => false) }

  /** The number that bits spell. */
  function Num(b: seq<bool>): nat { if b == [] then 0 else 2 * Num(b[..|b| - 1]) + if b[|b| - 1] then 1 else 0 }

  /** The groups of k bits that bits, whole groups of them, make. */
  function Grouped(b: seq<bool>, k: nat): seq<nat>
    requires k > 0
  {
    if |b| < k then [] else Grouped(b[..|b| - k], k) + [Num(b[|b| - k..])]
  }

  ghost predicate Groups(s: seq<nat>, k: nat) {
    forall v | v in s :: v < Shl(1, k)
  }

  /** What a word of 64 bits keeps of x, and what a mask of k bits, 5 or 8, does. */
  function Word(x: nat): nat { x % TWO_64 }
  function Masked(x: nat, k: nat): nat { if k == 5 then x % 32 else x % 256 }

  // ---- What regrouping makes ----

  /** How many bits fill the last group of five that holds n bytes. */
  function Padding(n: nat): nat { (5 - 8 * n % 5) % 5 }

  /** Bytes as groups of five bits, the last filled with zeros. */
  function ToFives(bytes: seq<nat>): seq<nat> { Grouped(Bits(bytes, 8) + Zeros(Padding(|bytes|)), 5) }

  /** Groups of five bits as bytes, if fewer than five bits are left over, and those are zeros. */
  function FromFives(fives: seq<nat>): Option<seq<nat>> {
    var b := Bits(fives, 5);
    var whole := |b| - |b| % 8;
    if |b| - whole >= 5 || b[whole..] != Zeros(|b| - whole) then None else Some(Grouped(b[..whole], 8))
  }

  // ---- Bits, numbers and groups ----

  lemma {:induction false} NumOfBits(v: nat, k: nat)
    requires v < Shl(1, k)
    ensures Num(BitsOf(v, k)) == v
  {
    if k > 0 {
      NumOfBits(v / 2, k - 1);
      assert BitsOf(v, k)[..k - 1] == BitsOf(v / 2, k - 1);
    }
  }

  lemma {:induction false} BitsOfNum(b: seq<bool>)
    ensures BitsOf(Num(b), |b|) == b && Num(b) < Shl(1, |b|)
  {
    if b != [] {
      BitsOfNum(b[..|b| - 1]);
      assert b == b[..|b| - 1] + [b[|b| - 1]];
    }
  }

  lemma BitsMore(out: seq<nat>, v: nat, k: nat)
    ensures Bits(out + [v], k) == Bits(out, k) + BitsOf(v, k)
    ensures Groups(out, k) && v < Shl(1, k) ==> Groups(out + [v], k)
  {
    assert (out + [v])[..|out|] == out;
    hide BitsOf, Shl;
  }

  lemma Associates(a: seq<bool>, b: seq<bool>, c: seq<bool>)
    ensures a + b + c == a + (b + c)
  {
  }

  lemma BitsEnd(s: seq<nat>, k: nat)
    requires s != []
    ensures var b := Bits(s, k); |b| >= k && b[..|b| - k] == Bits(s[..|s| - 1], k) && b[|b| - k..] == BitsOf(s[|s| - 1], k)
  {
    hide BitsOf;
  }

  /** Groups are those of their bits. */
  lemma {:induction false} GroupedBits(s: seq<nat>, k: nat)
    requires k > 0 && Groups(s, k)
    ensures Grouped(Bits(s, k), k) == s
  {
    if s != [] {
      var (init, v) := (s[..|s| - 1], s[|s| - 1]);
      assert s == init + [v];
      InGroups(s, |s| - 1, k);
      assert Groups(init, k) by { assert forall u | u in init :: u in s; }
      BitsEnd(s, k);
      hide Bits, Groups, BitsOf, Num, Shl;
      GroupedBits(init, k);
      NumOfBits(v, k);
    }
  }

  lemma InGroups(data: seq<nat>, i: nat, k: nat)
    requires Groups(data, k) && i < |data|
    ensures data[i] < Shl(1, k)
  {
    assert data[i] in data;
  }

  lemma GroupedEnd(b: seq<bool>, k: nat)
    requires 0 < k <= |b|
    ensures Grouped(b, k) == Grouped(b[..|b| - k], k) + [Num(b[|b| - k..])] && b == b[..|b| - k] + b[|b| - k..]
  {
    hide Num;
  }

  /** And the bits of groups are those they are of. */
  lemma {:induction false} BitsGrouped(b: seq<bool>, n: nat, k: nat)
    requires k > 0 && |b| == Times(n, k)
    ensures Bits(Grouped(b, k), k) == b && Groups(Grouped(b, k), k) && |Grouped(b, k)| == n
  {
    if n > 0 {
      var (head, tail) := (b[..|b| - k], b[|b| - k..]);
      GroupedEnd(b, k);
      hide BitsOf, Num, Grouped, Bits, Groups, Shl;
      BitsGrouped(head, n - 1, k);
      BitsOfNum(tail);
      BitsMore(Grouped(head, k), Num(tail), k);
    }
  }

  /** Every byte string comes back from its groups of five bits. */
  lemma RegroupingRoundTrips(bytes: seq<nat>)
    requires Groups(bytes, 8)
    ensures FromFives(ToFives(bytes)) == Some(bytes)
    ensures |ToFives(bytes)| == (8 * |bytes| + 4) / 5 && Groups(ToFives(bytes), 5)
  {
    var (n, pad) := (|bytes|, Padding(|bytes|));
    var (data, zeros) := (Bits(bytes, 8), Zeros(pad));
    TimesIs(n);
    TimesIs((8 * n + 4) / 5);
    PaddingFills(n);
    GroupedBits(bytes, 8);
    hide Bits, Grouped, Groups, Times, Padding;
    BitsGrouped(data + zeros, (8 * n + 4) / 5, 5);
    Parts(data, zeros, n);
  }

  lemma PaddingFills(n: nat)
    ensures 0 <= Padding(n) < 5 && 8 * n + Padding(n) == 5 * ((8 * n + 4) / 5)
  {
  }

  lemma PaddingLeft(n: nat, m: nat, bits: nat)
    requires 8 * n == 5 * m + bits && bits < 5
    ensures Padding(n) == if bits > 0 then 5 - bits else 0
  {
  }

  lemma Parts(data: seq<bool>, zeros: seq<bool>, n: nat)
    requires |data| == 8 * n && |zeros| < 5
    ensures var b := data + zeros; |b| - |b| % 8 == 8 * n && b[..8 * n] == data && b[8 * n..] == zeros
  {
  }

  // ---- Shifting moves bits ----

  lemma {:induction false} ShlHalf(q: nat, j: nat)
    requires j > 0
    ensures Shl(q, j) == 2 * Shl(q, j - 1)
  {
  }

  /** What is added above the last j bits leaves them as they are. */
  lemma {:induction false} BitsAbove(x: nat, q: nat, j: nat, n: nat)
    requires n <= j
    ensures BitsOf(x + Shl(q, j), n) == BitsOf(x, n)
  {
    if n > 0 {
      var y := Shl(q, j - 1);
      assert (x + 2 * y) / 2 == x / 2 + y && (x + 2 * y) % 2 == x % 2;
      BitsAbove(x / 2, q, j - 1, n - 1);
    }
  }

  /** Shifting v in puts its bits after. */
  lemma {:induction false} BitsShifted(acc: nat, v: nat, n: nat, f: nat)
    requires v < Shl(1, f)
    ensures BitsOf(Shl(acc, f) + v, n + f) == BitsOf(acc, n) + BitsOf(v, f)
  {
    if f > 0 {
      var y := Shl(acc, f - 1);
      assert (2 * y + v) / 2 == y + v / 2 && (2 * y + v) % 2 == v % 2;
      BitsShifted(acc, v / 2, n, f - 1);
      assert BitsOf(acc, n) + (BitsOf(v / 2, f - 1) + [v % 2 == 1]) == (BitsOf(acc, n) + BitsOf(v / 2, f - 1)) + [v % 2 == 1];
    }
  }

  /** The bits above the last n are those of the number shifted right by n. */
  lemma {:induction false} BitsSplit(acc: nat, n: nat, t: nat)
    ensures BitsOf(acc, n + t) == BitsOf(Shr(acc, n), t) + BitsOf(acc, n)
  {
    if n > 0 {
      BitsSplit(acc / 2, n - 1, t);
      assert BitsOf(Shr(acc, n), t) + (BitsOf(acc / 2, n - 1) + [acc % 2 == 1]) == (BitsOf(Shr(acc, n), t) + BitsOf(acc / 2, n - 1)) + [acc % 2 == 1];
    } else {
      assert BitsOf(acc, t) + [] == BitsOf(acc, t);
    }
  }

  lemma ShlTimes(q: nat)
    ensures Shl(q, 5) == 32 * q && Shl(q, 8) == 256 * q
  {
    ShlHalf(q, 8);
    ShlHalf(q, 7);
    ShlHalf(q, 6);
    ShlHalf(q, 5);
    ShlHalf(q, 4);
    ShlHalf(q, 3);
    ShlHalf(q, 2);
    ShlHalf(q, 1);
  }

  lemma {:induction false} ShlSum(q: nat, a: nat, b: nat)
    ensures Shl(Shl(q, a), b) == Shl(q, a + b)
  {
    if b > 0 { ShlSum(q, a, b - 1); }
  }

  lemma Shl64(q: nat)
    ensures Shl(q, 64) == TWO_64 * q
  {
    hide Shl;
    ShlTimes(q);
    ShlTimes(Shl(q, 8));
    ShlTimes(Shl(q, 16));
    ShlTimes(Shl(q, 24));
    ShlTimes(Shl(q, 32));
    ShlTimes(Shl(q, 40));
    ShlTimes(Shl(q, 48));
    ShlTimes(Shl(q, 56));
    ShlSum(q, 8, 8);
    ShlSum(q, 16, 8);
    ShlSum(q, 24, 8);
    ShlSum(q, 32, 8);
    ShlSum(q, 40, 8);
    ShlSum(q, 48, 8);
    ShlSum(q, 56, 8);
  }

  /** A word keeps the last bits. */
  lemma BitsOfWord(x: nat, n: nat)
    requires n <= 64
    ensures BitsOf(Word(x), n) == BitsOf(x, n)
  {
    var q := x / TWO_64;
    Shl64(q);
    assert x == x % TWO_64 + Shl(q, 64);
    BitsAbove(x % TWO_64, q, 64, n);
  }

  lemma BitsOfFive(x: nat)
    ensures BitsOf(x % 32, 5) == BitsOf(x, 5) && x % 32 < Shl(1, 5)
  {
    var q := x / 32;
    ShlTimes(q);
    ShlTimes(1);
    assert x == x % 32 + Shl(q, 5);
    hide BitsOf, Shl;
    BitsAbove(x % 32, q, 5, 5);
  }

  lemma BitsOfEight(x: nat)
    ensures BitsOf(x % 256, 8) == BitsOf(x, 8) && x % 256 < Shl(1, 8)
  {
    var q := x / 256;
    ShlTimes(q);
    ShlTimes(1);
    assert x == x % 256 + Shl(q, 8);
    hide BitsOf, Shl;
    BitsAbove(x % 256, q, 8, 8);
  }

  /** And so does a mask. */
  lemma BitsMasked(x: nat)
    ensures BitsOf(Masked(x, 5), 5) == BitsOf(x, 5) && BitsOf(Masked(x, 8), 8) == BitsOf(x, 8)
    ensures Masked(x, 5) < Shl(1, 5) && Masked(x, 8) < Shl(1, 8)
  {
    BitsOfFive(x);
    BitsOfEight(x);
    hide BitsOf, Shl;
  }

  lemma {:induction false} ZeroBits(k: nat)
    ensures BitsOf(0, k) == Zeros(k)
  {
    if k > 0 {
      ZeroBits(k - 1);
      assert Zeros(k) == Zeros(k - 1) + [false];
    }
  }

  // ---- As the source does it ----

  predicate Widths(from: nat, to: nat) { (from == 8 && to == 5) || (from == 5 && to == 8) }

  /** The bits of data, and those not put out yet, which acc ends in. */
  ghost predicate Holds(data: seq<nat>, from: nat, out: seq<nat>, to: nat, acc: nat, bits: nat) {
    Bits(data, from) == Bits(out, to) + BitsOf(acc, bits) && Groups(out, to)
  }

  lemma TakesIn(data: seq<nat>, v: nat, from: nat, out: seq<nat>, to: nat, acc: nat, bits: nat)
    requires Widths(from, to) && Holds(data, from, out, to, acc, bits) && bits < to && v < Shl(1, from)
    ensures Holds(data + [v], from, out, to, Word(Shl(acc, from) + v), bits + from)
  {
    hide BitsOf, Shl, Bits, Groups, Word;
    BitsShifted(acc, v, bits, from);
    BitsOfWord(Shl(acc, from) + v, bits + from);
    BitsMore(data, v, from);
    Associates(Bits(out, to), BitsOf(acc, bits), BitsOf(v, from));
  }

  lemma PutsOut(data: seq<nat>, from: nat, out: seq<nat>, to: nat, acc: nat, bits: nat)
    requires Widths(from, to) && Holds(data, from, out, to, acc, bits + to)
    ensures Holds(data, from, out + [Masked(Shr(acc, bits), to)], to, acc, bits)
  {
    var v := Masked(Shr(acc, bits), to);
    BitsSplit(acc, bits, to);
    BitsMasked(Shr(acc, bits));
    ShlTimes(1);
    BitsMore(out, v, to);
    hide BitsOf, Shl, Shr, Bits, Groups;
    Associates(Bits(out, to), BitsOf(v, to), BitsOf(acc, bits));
  }

  /** The bits left, with zeros after, as the source takes them: shifted left, and masked. */
  lemma LastBits(to: nat, acc: nat, bits: nat)
    requires (to == 5 || to == 8) && bits < to
    ensures var v := Masked(Word(Shl(acc, to - bits)), to); BitsOf(v, to) == BitsOf(acc, bits) + Zeros(to - bits) && v < Shl(1, to)
  {
    var x := Shl(acc, to - bits);
    BitsMasked(Word(x));
    BitsOfWord(x, to);
    ShlPositive(to - bits);
    BitsShifted(acc, 0, bits, to - bits);
    ZeroBits(to - bits);
    ShlTimes(1);
  }

  lemma {:induction false} ShlPositive(k: nat)
    ensures Shl(1, k) > 0
  {
    if k > 0 { ShlPositive(k - 1); }
  }

  /** Puts out every whole group there is. */
  method PutOut(ghost data: seq<nat>, ghost from: nat, was: seq<nat>, to: nat, acc: nat, held: nat) returns (out: seq<nat>, bits: nat)
    requires Widths(from, to) && Holds(data, from, was, to, acc, held)
    ensures bits < to && Holds(data, from, out, to, acc, bits)
  {
    hide Shl, Shr, Holds, Word, Masked;
    out, bits := was, held;
    while bits >= to
      invariant Holds(data, from, out, to, acc, bits)
    {
      PutsOut(data, from, out, to, acc, bits - to);
      bits := bits - to;
      out := out + [Masked(Shr(acc, bits), to)];
    }
  }

  method Regroup(data: seq<nat>, from: nat, to: nat, pad: bool) returns (r: Option<seq<nat>>)
    requires Widths(from, to) && pad == (from == 8) && Groups(data, from)
    ensures r == if pad then Some(ToFives(data)) else FromFives(data)
  {
    var acc: nat, bits: nat, out: seq<nat> := 0, 0, [];
    for i := 0 to |data|
      invariant bits < to && Holds(data[..i], from, out, to, acc, bits)
    {
      hide Shl, Shr, Holds, Word, Masked, Groups;
      InGroups(data, i, from);
      assert data[..i + 1] == data[..i] + [data[i]];
      TakesIn(data[..i], data[i], from, out, to, acc, bits);
      acc := Word(Shl(acc, from) + data[i]);
      bits := bits + from;
      out, bits := PutOut(data[..i + 1], from, out, to, acc, bits);
    }
    assert data[..|data|] == data;
    r := Close(data, from, to, pad, out, acc, bits);
  }

  /** What is left once all is taken in is padded, or must be nothing. */
  method Close(ghost data: seq<nat>, from: nat, to: nat, pad: bool, full: seq<nat>, acc: nat, bits: nat) returns (r: Option<seq<nat>>)
    requires Widths(from, to) && pad == (from == 8) && bits < to && Holds(data, from, full, to, acc, bits)
    ensures r == if pad then Some(ToFives(data)) else FromFives(data)
  {
    hide Shl, Shr, Holds, Bits, BitsOf, Grouped, Word, Masked;
    var out := full;
    var last := Masked(Word(Shl(acc, to - bits)), to);
    if pad {
      Padded(data, out, acc, bits);
      if bits > 0 { out := out + [last]; }
    } else {
      Stripped(data, out, acc, bits);
      if bits >= from || last != 0 { return None; }
    }
    return Some(out);
  }

  lemma Lengths(data: seq<nat>, from: nat, out: seq<nat>, to: nat, acc: nat, bits: nat)
    requires Widths(from, to) && Holds(data, from, out, to, acc, bits)
    ensures from * |data| == to * |out| + bits && |Bits(out, to)| == to * |out| && |Bits(data, from)| == from * |data|
  {
    TimesIs(|data|);
    TimesIs(|out|);
    hide Bits, BitsOf;
  }

  lemma ToFivesIs(data: seq<nat>, out: seq<nat>)
    requires Bits(data, 8) + Zeros(Padding(|data|)) == Bits(out, 5) && Groups(out, 5)
    ensures ToFives(data) == out
  {
    hide Bits, Grouped, Groups, Padding, Zeros;
    GroupedBits(out, 5);
  }

  lemma NoneLeft(b: seq<bool>, none: seq<bool>)
    requires none == []
    ensures b + none == b && Zeros(0) == []
  {
  }

  lemma Padded(data: seq<nat>, out: seq<nat>, acc: nat, bits: nat)
    requires Holds(data, 8, out, 5, acc, bits) && bits < 5
    ensures ToFives(data) == if bits > 0 then out + [Masked(Word(Shl(acc, 5 - bits)), 5)] else out
  {
    var last := Masked(Word(Shl(acc, 5 - bits)), 5);
    LastBits(5, acc, bits);
    Lengths(data, 8, out, 5, acc, bits);
    BitsMore(out, last, 5);
    PaddingLeft(|data|, |out|, bits);
    assert Bits(data, 8) == Bits(out, 5) + BitsOf(acc, bits) && Groups(out, 5);
    hide *;
    if bits > 0 {
      Associates(Bits(out, 5), BitsOf(acc, bits), Zeros(5 - bits));
      ToFivesIs(data, out + [last]);
    } else {
      NoneLeft(Bits(out, 5), BitsOf(acc, bits));
      NoneLeft(Bits(data, 8), Zeros(0));
      ToFivesIs(data, out);
    }
  }

  lemma Stripped(data: seq<nat>, out: seq<nat>, acc: nat, bits: nat)
    requires Holds(data, 5, out, 8, acc, bits) && bits < 8
    ensures FromFives(data) == if bits >= 5 || Masked(Word(Shl(acc, 8 - bits)), 8) != 0 then None else Some(out)
  {
    var last := Masked(Word(Shl(acc, 8 - bits)), 8);
    LastBits(8, acc, bits);
    NumOfBits(last, 8);
    ZeroBits(8);
    Lengths(data, 5, out, 8, acc, bits);
    GroupedBits(out, 8);
    hide Shl, Grouped, BitsOf, Bits, Groups, Num, Word, Masked;
    Remains(Bits(out, 8), BitsOf(acc, bits), |out|);
    ZerosAtEnd(BitsOf(acc, bits), 8 - bits, last);
  }

  lemma Remains(out: seq<bool>, rest: seq<bool>, n: nat)
    requires |out| == 8 * n && |rest| < 8
    ensures var b := out + rest; |b| - |b| % 8 == 8 * n && b[..8 * n] == out && b[8 * n..] == rest
  {
  }

  lemma ZerosAtEnd(b: seq<bool>, n: nat, last: nat)
    requires BitsOf(last, |b| + n) == b + Zeros(n) && Num(BitsOf(last, |b| + n)) == last && BitsOf(0, |b| + n) == Zeros(|b| + n)
    ensures last == 0 <==> b == Zeros(|b|)
  {
    hide BitsOf;
    assert Zeros(|b| + n) == Zeros(|b|) + Zeros(n);
    if last == 0 { assert b == (b + Zeros(n))[..|b|]; }
    if b == Zeros(|b|) { NumOfZeros(|b| + n); }
  }

  lemma {:induction false} NumOfZeros(n: nat)
    ensures Num(Zeros(n)) == 0
  {
    if n > 0 {
      NumOfZeros(n - 1);
      assert Zeros(n)[..n - 1] == Zeros(n - 1);
    }
  }
}
