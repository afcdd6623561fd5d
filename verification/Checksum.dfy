/** The checksum of Bech32m, as BIP 350 specifies it (internal/invitation/bech32m.go:20-33).

It is linear over the bits; a step of it forgets nothing; and it changes whatever garbles a code within six characters
in a row. What takes bits apart is kept to small lemmas, and named by functions everywhere else. */
module Checksum {
  function Xor(a: bv32, b: bv32): bv32 { a ^ b }

  /** Five bits. */
  predicate IsSmall(v: bv32) { v < 32 }

  /** Thirty bits. */
  predicate IsRegister(chk: bv32) { chk < 0x4000_0000 }

  function Generator(k: bv32): bv32 {
    if k == 0 then 0x3b6a57b2 else if k == 1 then 0x26508e6d else if k == 2 then 0x1ea119fa else if k == 3 then 0x3d4233dd else 0x2a1462b3
  }

  predicate Bit(top: bv32, k: bv32)
    requires k < 5
  {
    (top >> k) & 1 == 1
  }

  function Term(top: bv32, k: bv32): bv32
    requires k < 5
  {
    if Bit(top, k) then Generator(k) else 0
  }

  /** start, with the generators of the first n bits of top. */
  function Terms(start: bv32, top: bv32, n: bv32): bv32
    requires n <= 5
  {
    var s1 := if n > 0 then Xor(start, Term(top, 0)) else start;
    var s2 := if n > 1 then Xor(s1, Term(top, 1)) else s1;
    var s3 := if n > 2 then Xor(s2, Term(top, 2)) else s2;
    var s4 := if n > 3 then Xor(s3, Term(top, 3)) else s3;
    if n > 4 then Xor(s4, Term(top, 4)) else s4
  }

  function Top(chk: bv32): bv32 { chk >> 25 }

  function Shifted(chk: bv32): bv32 { (chk & 0x1ffffff) << 5 }

  /** The checksum register after a step, of no value. */
  function Feed(chk: bv32): bv32 { Terms(Shifted(chk), Top(chk), 5) }

  /** And after a step for each value. */
  function Fed(chk: bv32, values: seq<bv32>): bv32 {
    if values == [] then chk else Xor(Feed(Fed(chk, values[..|values| - 1])), values[|values| - 1])
  }

  method Polymod(values: seq<bv32>) returns (chk: bv32)
    ensures chk == Fed(1, values)
  {
    chk := 1;
    for n := 0 to |values|
      invariant chk == Fed(1, values[..n])
    {
      hide Feed, Xor;
      assert values[..n + 1][..n] == values[..n];
      chk := Step(chk, values[n]);
    }
    assert values[..|values|] == values;
  }

  method Step(chk: bv32, v: bv32) returns (next: bv32)
    ensures next == Xor(Feed(chk), v)
  {
    var top := chk >> 25;
    next := ((chk & 0x1ffffff) << 5) ^ v;
    var i: bv32 := 0;
    while i < 5
      invariant i <= 5 && next == Terms(Xor(Shifted(chk), v), Top(chk), i)
      decreases 5 - i
    {
      TermsStep(Xor(Shifted(chk), v), top, i);
      if (top >> i) & 1 == 1 { next := next ^ Generator(i); }
      hide Terms;
      i := i + 1;
    }
    TermsXor(Shifted(chk), v, Top(chk));
  }

  lemma TermsStep(start: bv32, top: bv32, i: bv32)
    requires i < 5
    ensures Terms(start, top, i + 1) == if Bit(top, i) then Xor(Terms(start, top, i), Generator(i)) else Terms(start, top, i)
  {
    assert forall a: bv32 :: Xor(a, 0) == a;
    hide Xor, Bit, Generator;
    if i == 0 {} else if i == 1 {} else if i == 2 {} else if i == 3 {} else { assert i == 4; }
  }

  // ---- The checksum is linear ----

  lemma XorIs(a: bv32, b: bv32)
    ensures Xor(a, b) == a ^ b
  {
  }

  lemma XorOfXors(a: bv32, b: bv32, v: bv32, w: bv32)
    ensures Xor(Xor(a, b), Xor(v, w)) == Xor(a ^ b, v ^ w)
  {
    hide Xor;
    XorIs(a, b);
    XorIs(v, w);
  }

  lemma BitsSwap(a: bv32, b: bv32, v: bv32, w: bv32)
    ensures Xor(a ^ b, v ^ w) == Xor(a ^ v, b ^ w)
  {
    hide Xor;
    XorIs(a ^ b, v ^ w);
    XorIs(a ^ v, b ^ w);
  }

  lemma XorSwap(a: bv32, b: bv32, v: bv32, w: bv32)
    ensures Xor(Xor(a, b), Xor(v, w)) == Xor(Xor(a, v), Xor(b, w))
  {
    hide Xor;
    XorOfXors(a, b, v, w);
    BitsSwap(a, b, v, w);
    XorOfXors(a, v, b, w);
  }

  lemma XorOfThree(a: bv32, v: bv32, w: bv32)
    ensures Xor(Xor(a, v), w) == a ^ v ^ w
  {
    hide Xor;
    XorIs(a, v);
    XorIs(a ^ v, w);
  }

  lemma XorTurn(a: bv32, v: bv32, w: bv32)
    ensures Xor(Xor(a, v), w) == Xor(Xor(a, w), v)
  {
    hide Xor;
    XorOfThree(a, v, w);
    XorOfThree(a, w, v);
  }

  lemma XorSelf(a: bv32)
    ensures Xor(a, a) == 0 && Xor(a, 0) == a && Xor(0, a) == a
  {
  }

  lemma XorApart(a: bv32, b: bv32)
    requires Xor(a, b) == 0
    ensures a == b
  {
  }

  lemma XorSame(a: bv32, b: bv32, v: bv32)
    requires Xor(a, v) == Xor(b, v)
    ensures a == b
  {
    assert (a ^ v) ^ v == a && (b ^ v) ^ v == b;
  }

  lemma AllTerms(start: bv32, top: bv32)
    ensures Terms(start, top, 5) == Xor(Xor(Xor(Xor(Xor(start, Term(top, 0)), Term(top, 1)), Term(top, 2)), Term(top, 3)), Term(top, 4))
  {
    hide Xor, Term;
  }

  lemma TermsXor(start: bv32, v: bv32, top: bv32)
    ensures Terms(Xor(start, v), top, 5) == Xor(Terms(start, top, 5), v)
  {
    var (a, b, c, d, e) := (Term(top, 0), Term(top, 1), Term(top, 2), Term(top, 3), Term(top, 4));
    hide *;
    AllTerms(start, top);
    AllTerms(Xor(start, v), top);
    XorTurn(start, v, a);
    XorTurn(Xor(start, a), v, b);
    XorTurn(Xor(Xor(start, a), b), v, c);
    XorTurn(Xor(Xor(Xor(start, a), b), c), v, d);
    XorTurn(Xor(Xor(Xor(Xor(start, a), b), c), d), v, e);
  }

  lemma BitXor(a: bv32, b: bv32, k: bv32)
    requires k < 5
    ensures Bit(Xor(a, b), k) <==> Bit(a, k) != Bit(b, k)
  {
    assert ((a ^ b) >> k) & 1 == ((a >> k) & 1) ^ ((b >> k) & 1);
    assert (a >> k) & 1 == 0 || (a >> k) & 1 == 1;
    assert (b >> k) & 1 == 0 || (b >> k) & 1 == 1;
  }

  lemma TermLinear(a: bv32, b: bv32, k: bv32)
    requires k < 5
    ensures Term(Xor(a, b), k) == Xor(Term(a, k), Term(b, k))
  {
    BitXor(a, b, k);
    XorSelf(Generator(k));
    XorSelf(0);
    hide Bit, Xor, Generator;
  }

  /** With a generator's term each, two sums of terms are added as before. */
  lemma TermsLinearStep(s: bv32, t: bv32, a: bv32, b: bv32, k: bv32)
    requires k < 5
    ensures Xor(Xor(s, t), Term(Xor(a, b), k)) == Xor(Xor(s, Term(a, k)), Xor(t, Term(b, k)))
  {
    hide *;
    TermLinear(a, b, k);
    XorSwap(s, t, Term(a, k), Term(b, k));
  }

  lemma TermsLinear(s: bv32, t: bv32, a: bv32, b: bv32)
    ensures Terms(Xor(s, t), Xor(a, b), 5) == Xor(Terms(s, a, 5), Terms(t, b, 5))
  {
    hide *;
    var (s1, t1) := (Xor(s, Term(a, 0)), Xor(t, Term(b, 0)));
    var (s2, t2) := (Xor(s1, Term(a, 1)), Xor(t1, Term(b, 1)));
    var (s3, t3) := (Xor(s2, Term(a, 2)), Xor(t2, Term(b, 2)));
    var (s4, t4) := (Xor(s3, Term(a, 3)), Xor(t3, Term(b, 3)));
    AllTerms(s, a);
    AllTerms(t, b);
    AllTerms(Xor(s, t), Xor(a, b));
    TermsLinearStep(s, t, a, b, 0);
    TermsLinearStep(s1, t1, a, b, 1);
    TermsLinearStep(s2, t2, a, b, 2);
    TermsLinearStep(s3, t3, a, b, 3);
    TermsLinearStep(s4, t4, a, b, 4);
  }

  lemma FeedLinear(a: bv32, b: bv32)
    ensures Feed(Xor(a, b)) == Xor(Feed(a), Feed(b))
  {
    assert Top(Xor(a, b)) == Xor(Top(a), Top(b)) && Shifted(Xor(a, b)) == Xor(Shifted(a), Shifted(b));
    hide Top, Shifted, Terms, Xor;
    TermsLinear(Shifted(a), Shifted(b), Top(a), Top(b));
  }

  lemma ShiftedIsRegister(chk: bv32)
    ensures IsRegister(Shifted(chk))
  {
  }

  lemma TermIsRegister(top: bv32, k: bv32)
    requires k < 5
    ensures IsRegister(Term(top, k))
  {
  }

  lemma FeedIsRegister(chk: bv32)
    ensures IsRegister(Feed(chk))
  {
    var (s, top) := (Shifted(chk), Top(chk));
    var (a, b, c, d, e) := (Term(top, 0), Term(top, 1), Term(top, 2), Term(top, 3), Term(top, 4));
    hide IsRegister, Xor, Term, Shifted, Top;
    ShiftedIsRegister(chk);
    TermIsRegister(top, 0);
    TermIsRegister(top, 1);
    TermIsRegister(top, 2);
    TermIsRegister(top, 3);
    TermIsRegister(top, 4);
    RegisterXor(s, a);
    RegisterXor(Xor(s, a), b);
    RegisterXor(Xor(Xor(s, a), b), c);
    RegisterXor(Xor(Xor(Xor(s, a), b), c), d);
    RegisterXor(Xor(Xor(Xor(Xor(s, a), b), c), d), e);
  }

  /** The generators of the bits of top, together. */
  function Together(top: bv32): bv32 {
    (if (top >> 0) & 1 == 1 then 0x3b6a57b2 else 0) ^ (if (top >> 1) & 1 == 1 then 0x26508e6d else 0)
    ^ (if (top >> 2) & 1 == 1 then 0x1ea119fa else 0) ^ (if (top >> 3) & 1 == 1 then 0x3d4233dd else 0)
    ^ (if (top >> 4) & 1 == 1 then 0x2a1462b3 else 0)
  }

  lemma TogetherIs(top: bv32)
    requires top < 32
    ensures Terms(0, top, 5) == Together(top)
  {
  }

  /** The generators' last five bits tell their bits apart. */
  lemma TogetherKernel(top: bv32)
    requires top < 32 && Together(top) & 31 == 0
    ensures top == 0
  {
  }

  lemma NoTerms(start: bv32)
    ensures Terms(start, 0, 5) == start
  {
    XorSelf(start);
    assert forall k: bv32 | k < 5 :: Term(0, k) == 0;
    hide Term, Xor;
  }

  /** A register with room for a value. */
  function Room(r: bv32): bv32 { r << 5 }

  lemma FeedSmall(r: bv32)
    requires r < 0x200_0000
    ensures Feed(r) == Room(r)
  {
    assert Top(r) == 0 && Shifted(r) == r << 5;
    NoTerms(r << 5);
    hide Top, Shifted, Terms;
  }

  lemma FeedParts(chk: bv32)
    ensures Feed(chk) == Xor(Terms(0, Top(chk), 5), Shifted(chk))
  {
    TermsXor(0, Shifted(chk), Top(chk));
    XorSelf(Shifted(chk));
    hide Terms, Xor, Shifted, Top;
  }

  lemma TopOf(chk: bv32)
    requires IsRegister(chk)
    ensures Top(chk) < 32 && (Top(chk) == 0 ==> chk < 0x200_0000)
    ensures chk < 0x200_0000 && Room(chk) == 0 ==> chk == 0
    ensures Shifted(chk) & 31 == 0
  {
  }

  lemma FeedKernel(a: bv32)
    requires IsRegister(a) && Feed(a) == 0
    ensures a == 0
  {
    hide *;
    FeedParts(a);
    XorApart(Terms(0, Top(a), 5), Shifted(a));
    TopOf(a);
    TogetherIs(Top(a));
    TogetherKernel(Top(a));
    FeedSmall(a);
  }

  lemma RegisterXor(a: bv32, b: bv32)
    ensures IsRegister(a) && IsRegister(b) ==> IsRegister(Xor(a, b))
    ensures IsSmall(a) && IsSmall(b) ==> IsSmall(Xor(a, b))
    ensures IsSmall(b) ==> IsRegister(b)
  {
  }

  /** A step forgets nothing: two registers that differ still do after it. */
  lemma FeedInjective(a: bv32, b: bv32)
    requires IsRegister(a) && IsRegister(b) && Feed(a) == Feed(b)
    ensures a == b
  {
    FeedLinear(a, b);
    XorSelf(Feed(a));
    RegisterXor(a, b);
    hide Feed, Xor, IsRegister;
    FeedKernel(Xor(a, b));
    XorApart(a, b);
  }

  ghost predicate Small(values: seq<bv32>) {
    forall v | v in values :: IsSmall(v)
  }

  lemma {:induction false} FedIsRegister(chk: bv32, values: seq<bv32>)
    requires Small(values) && (IsRegister(chk) || values != [])
    ensures IsRegister(Fed(chk, values))
  {
    hide Feed, Xor, IsRegister, IsSmall;
    if values != [] {
      var (init, v) := (values[..|values| - 1], values[|values| - 1]);
      FeedIsRegister(Fed(chk, init));
      assert v in values;
      RegisterXor(v, v);
      RegisterXor(Feed(Fed(chk, init)), v);
    }
  }

  lemma {:induction false} FedSplit(chk: bv32, x: seq<bv32>, y: seq<bv32>)
    ensures Fed(chk, x + y) == Fed(Fed(chk, x), y)
  {
    hide Feed, Xor;
    if y == [] {
      assert x + y == x;
    } else {
      FedSplit(chk, x, y[..|y| - 1]);
      assert (x + y)[..|x + y| - 1] == x + y[..|y| - 1];
    }
  }

  /** Two registers that differ still do after the same values. */
  lemma {:induction false} FedInjective(a: bv32, b: bv32, values: seq<bv32>)
    requires IsRegister(a) && IsRegister(b) && Small(values) && Fed(a, values) == Fed(b, values)
    ensures a == b
  {
    hide Feed, Xor, IsRegister, IsSmall;
    if values != [] {
      var (init, v) := (values[..|values| - 1], values[|values| - 1]);
      assert forall u | u in init :: u in values;
      FedIsRegister(a, init);
      FedIsRegister(b, init);
      XorSame(Feed(Fed(a, init)), Feed(Fed(b, init)), v);
      FeedInjective(Fed(a, init), Fed(b, init));
      FedInjective(a, b, init);
    }
  }

  ghost function Xored(x: seq<bv32>, y: seq<bv32>): seq<bv32>
    requires |x| == |y|
  {
    seq(|x|, i requires 0 <= i < |x| => Xor(x[i], y[i]))
  }

  /** The checksum of what two codes differ by is what their checksums differ by. */
  lemma {:induction false} FedLinear(a: bv32, b: bv32, x: seq<bv32>, y: seq<bv32>)
    requires |x| == |y|
    ensures Fed(Xor(a, b), Xored(x, y)) == Xor(Fed(a, x), Fed(b, y))
  {
    hide Feed, Xor;
    if x != [] {
      var n := |x| - 1;
      FedLinear(a, b, x[..n], y[..n]);
      assert Xored(x, y)[..n] == Xored(x[..n], y[..n]);
      FeedLinear(Fed(a, x[..n]), Fed(b, y[..n]));
      XorSwap(Feed(Fed(a, x[..n])), Feed(Fed(b, y[..n])), x[n], y[n]);
    }
  }

  // ---- Six values fill the register ----

  /** A register with room for v, and v put in. */
  function Push(r: bv32, v: bv32): bv32 { Xor(Room(r), v) }

  /** Values, five bits each, as the register holds them. */
  function Packed(e: seq<bv32>): bv32 {
    if e == [] then 0 else Push(Packed(e[..|e| - 1]), e[|e| - 1])
  }

  /** r is as many bits as n values take. */
  predicate Fits(r: bv32, n: nat) {
    if n == 0 then r == 0
    else if n == 1 then r < 0x20
    else if n == 2 then r < 0x400
    else if n == 3 then r < 0x8000
    else if n == 4 then r < 0x10_0000
    else if n == 5 then r < 0x200_0000
    else r < 0x4000_0000
  }

  lemma PushFits(r: bv32, v: bv32, n: nat)
    requires Fits(r, n) && IsSmall(v) && n < 6
    ensures Fits(Push(r, v), n + 1)
  {
    if n == 0 {} else if n == 1 {} else if n == 2 {} else if n == 3 {} else if n == 4 {} else {}
  }

  lemma FitsLess(r: bv32, n: nat)
    requires Fits(r, n) && n < 6
    ensures r < 0x200_0000
  {
  }

  lemma PushZero(r: bv32, v: bv32)
    requires IsSmall(v) && r < 0x200_0000 && Push(r, v) == 0
    ensures r == 0 && v == 0
  {
  }

  lemma FeedPushes(r: bv32, v: bv32)
    requires r < 0x200_0000
    ensures Xor(Feed(r), v) == Push(r, v)
  {
    hide Feed, Xor, Room;
    FeedSmall(r);
  }

  /** Of n values, the last, and the others. */
  lemma SmallFirst(e: seq<bv32>)
    requires Small(e) && e != []
    ensures Small(e[..|e| - 1]) && IsSmall(e[|e| - 1])
  {
    hide IsSmall;
    assert e[|e| - 1] in e && forall v | v in e[..|e| - 1] :: v in e;
  }

  lemma {:induction false} PackedFits(e: seq<bv32>)
    requires Small(e) && |e| <= 6
    ensures Fits(Packed(e), |e|)
  {
    hide Push, IsSmall, Small;
    if e != [] {
      SmallFirst(e);
      PackedFits(e[..|e| - 1]);
      hide Fits;
      PushFits(Packed(e[..|e| - 1]), e[|e| - 1], |e| - 1);
    }
  }

  /** Fed to an empty register, six values at most are held one beside the other. */
  lemma {:induction false} FedIsPacked(e: seq<bv32>)
    requires Small(e) && |e| <= 6
    ensures Fed(0, e) == Packed(e)
  {
    hide Push, IsSmall, Small, Fits, Feed, Xor;
    if e != [] {
      var init := e[..|e| - 1];
      SmallFirst(e);
      FedIsPacked(init);
      PackedFits(init);
      FitsLess(Packed(init), |init|);
      FeedPushes(Packed(init), e[|e| - 1]);
    }
  }

  lemma {:induction false} PackedZero(e: seq<bv32>)
    requires Small(e) && |e| <= 6 && Packed(e) == 0
    ensures forall v | v in e :: v == 0
  {
    hide Push, IsSmall, Small, Fits;
    if e != [] {
      var (init, v) := (e[..|e| - 1], e[|e| - 1]);
      SmallFirst(e);
      PackedFits(init);
      FitsLess(Packed(init), |init|);
      PushZero(Packed(init), v);
      PackedZero(init);
      assert e == init + [v];
    }
  }

  /** Six values leave a register that no six others leave. */
  lemma SixInjective(chk: bv32, x: seq<bv32>, y: seq<bv32>)
    requires |x| == 6 && |y| == 6 && Small(x) && Small(y) && Fed(chk, x) == Fed(chk, y)
    ensures x == y
  {
    hide Feed, Xor, IsSmall, Packed, Fed, Small;
    var e := Xored(x, y);
    FedLinear(chk, chk, x, y);
    XorSelf(chk);
    XorSelf(Fed(chk, x));
    XoredSmall(x, y);
    FedIsPacked(e);
    PackedZero(e);
    forall i | 0 <= i < 6 ensures x[i] == y[i] {
      assert e[i] in e && e[i] == 0;
      XorApart(x[i], y[i]);
    }
  }

  lemma XoredSmall(x: seq<bv32>, y: seq<bv32>)
    requires |x| == |y| && Small(x) && Small(y)
    ensures Small(Xored(x, y))
  {
    hide IsSmall, Xor;
    forall i | 0 <= i < |x| ensures IsSmall(Xored(x, y)[i]) {
      assert x[i] in x && y[i] in y;
      RegisterXor(x[i], y[i]);
    }
  }

  /** Values that differ within six in a row, and nowhere else, have different checksums, whatever their number. */
  lemma BurstChangesChecksum(chk: bv32, x: seq<bv32>, y: seq<bv32>, at: nat)
    requires |x| == |y| && at + 6 <= |x| && Small(x[at..]) && Small(y[at..])
    requires x[..at] == y[..at] && x[at + 6..] == y[at + 6..] && x != y
    ensures Fed(chk, x) != Fed(chk, y)
  {
    hide Feed, Xor, IsRegister, IsSmall, Fed;
    var (head, u, w, tail) := (x[..at], x[at..at + 6], y[at..at + 6], x[at + 6..]);
    InThree(x, at);
    InThree(y, at);
    assert (forall v | v in u || v in tail :: v in x[at..]) && forall v | v in w :: v in y[at..];
    FedSplit(chk, head, u);
    FedSplit(chk, head + u, tail);
    FedSplit(chk, head, w);
    FedSplit(chk, head + w, tail);
    BurstShows(Fed(chk, head), u, w, tail);
  }

  lemma InThree(x: seq<bv32>, at: nat)
    requires at + 6 <= |x|
    ensures x == x[..at] + x[at..at + 6] + x[at + 6..]
  {
  }

  lemma BurstShows(c: bv32, u: seq<bv32>, w: seq<bv32>, tail: seq<bv32>)
    requires |u| == 6 && |w| == 6 && Small(u) && Small(w) && Small(tail) && u != w
    ensures Fed(Fed(c, u), tail) != Fed(Fed(c, w), tail)
  {
    hide Feed, Xor, IsRegister, IsSmall, Fed, Small;
    FedIsRegister(c, u);
    FedIsRegister(c, w);
    if Fed(Fed(c, u), tail) == Fed(Fed(c, w), tail) {
      FedInjective(Fed(c, u), Fed(c, w), tail);
      SixInjective(c, u, w);
    }
  }

  // ---- The checksum that closes a code ----

  /** mod, without its last k groups of five bits. */
  function Rest(mod: bv32, k: nat): bv32 {
    if k == 0 then mod else Drop(Rest(mod, k - 1))
  }

  function Drop(r: bv32): bv32 { r >> 5 }

  function ShiftedBy(mod: bv32, k: nat): bv32
    requires k <= 5
  {
    if k == 0 then mod else if k == 1 then mod >> 5 else if k == 2 then mod >> 10 else if k == 3 then mod >> 15
    else if k == 4 then mod >> 20 else mod >> 25
  }

  lemma DropsFive(mod: bv32)
    ensures Drop(ShiftedBy(mod, 0)) == ShiftedBy(mod, 1)
  {
  }

  lemma DropsTen(mod: bv32)
    ensures Drop(ShiftedBy(mod, 1)) == ShiftedBy(mod, 2)
  {
  }

  lemma DropsFifteen(mod: bv32)
    ensures Drop(ShiftedBy(mod, 2)) == ShiftedBy(mod, 3)
  {
  }

  lemma DropsTwenty(mod: bv32)
    ensures Drop(ShiftedBy(mod, 3)) == ShiftedBy(mod, 4)
  {
  }

  lemma DropsAll(mod: bv32)
    ensures Drop(ShiftedBy(mod, 4)) == ShiftedBy(mod, 5)
  {
  }

  lemma DropShifts(mod: bv32, k: nat)
    requires k < 5
    ensures Drop(ShiftedBy(mod, k)) == ShiftedBy(mod, k + 1)
  {
    hide *;
    if k == 0 {
      DropsFive(mod);
    } else if k == 1 {
      DropsTen(mod);
    } else if k == 2 {
      DropsFifteen(mod);
    } else if k == 3 {
      DropsTwenty(mod);
    } else {
      DropsAll(mod);
    }
  }

  /** That is, mod shifted right by as many bits. */
  lemma {:induction false} RestIsShift(mod: bv32, k: nat)
    requires k <= 5
    ensures Rest(mod, k) == ShiftedBy(mod, k)
  {
    if k > 0 {
      hide Drop, ShiftedBy;
      RestIsShift(mod, k - 1);
      DropShifts(mod, k - 1);
    }
  }

  function LastFive(r: bv32): bv32 { r & 31 }

  /** The checksum's k-th value, of six. */
  function Digit(mod: bv32, k: nat): bv32
    requires k < 6
  {
    LastFive(Rest(mod, 5 - k))
  }

  function Digits(mod: bv32): (ds: seq<bv32>)
    ensures |ds| == 6
  {
    [Digit(mod, 0), Digit(mod, 1), Digit(mod, 2), Digit(mod, 3), Digit(mod, 4), Digit(mod, 5)]
  }

  lemma LastFiveSmall(r: bv32)
    ensures IsSmall(LastFive(r))
  {
  }

  lemma DigitsSmall(mod: bv32)
    ensures Small(Digits(mod))
  {
    hide LastFive, IsSmall, Rest;
    forall v | v in Digits(mod) ensures IsSmall(v) {
      var k :| 0 <= k < 6 && v == LastFive(Rest(mod, 5 - k));
      LastFiveSmall(Rest(mod, 5 - k));
    }
  }

  lemma PushBack(mod: bv32, k: nat)
    ensures Push(Rest(mod, k + 1), LastFive(Rest(mod, k))) == Rest(mod, k)
  {
    hide *;
    PushesBack(Rest(mod, k));
    RestOfRest(mod, k);
  }

  lemma PushesBack(r: bv32)
    ensures Push(Drop(r), LastFive(r)) == r
  {
  }

  lemma RestOfRest(mod: bv32, k: nat)
    ensures Rest(mod, k + 1) == Drop(Rest(mod, k))
  {
    hide Drop;
  }

  lemma DropFits(r: bv32, n: nat)
    requires 0 < n <= 6 && Fits(r, n)
    ensures Fits(Drop(r), n - 1)
  {
    if n == 1 {} else if n == 2 {} else if n == 3 {} else if n == 4 {} else if n == 5 {} else {}
  }

  lemma {:induction false} RestFits(mod: bv32, k: nat)
    requires IsRegister(mod) && k <= 6
    ensures Fits(Rest(mod, k), 6 - k)
  {
    if k > 0 {
      hide Drop, Fits, IsRegister;
      RestFits(mod, k - 1);
      DropFits(Rest(mod, k - 1), 7 - k);
    }
  }

  lemma DigitIs(mod: bv32, k: nat)
    requires k < 6
    ensures Digits(mod)[k] == LastFive(Rest(mod, 5 - k))
  {
    hide LastFive, Rest;
  }

  lemma PackedMore(e: seq<bv32>, n: nat)
    requires n < |e|
    ensures Packed(e[..n + 1]) == Push(Packed(e[..n]), e[n])
  {
    hide Push;
    assert e[..n + 1][..n] == e[..n];
  }

  lemma NoDigits(mod: bv32)
    requires IsRegister(mod)
    ensures Packed(Digits(mod)[..0]) == Rest(mod, 6)
  {
    RestFits(mod, 6);
    hide Rest, Digits, IsRegister, Push;
  }

  /** The first n digits are what is left of mod without the others. */
  lemma {:induction false} PackedDigits(mod: bv32, n: nat)
    requires IsRegister(mod) && n <= 6
    ensures Packed(Digits(mod)[..n]) == Rest(mod, 6 - n)
  {
    hide *;
    if n == 0 {
      NoDigits(mod);
    } else {
      PackedDigits(mod, n - 1);
      PackedMore(Digits(mod), n - 1);
      DigitIs(mod, n - 1);
      PushBack(mod, 6 - n);
    }
  }

  lemma ZerosAreSmall()
    ensures |ZEROS| == 6 && Small(ZEROS)
  {
  }

  const ZEROS: seq<bv32> := [0, 0, 0, 0, 0, 0]

  /** The digits of what the values and six zeros leave, but for k, make the values' checksum k. */
  lemma DigitsClose(chk: bv32, values: seq<bv32>, k: bv32)
    requires IsRegister(k)
    ensures Fed(chk, values + Digits(Xor(Fed(chk, values + ZEROS), k))) == k
  {
    hide *;
    var (r, open) := (Fed(chk, values), Fed(chk, values + ZEROS));
    var mod := Xor(open, k);
    var ds := Digits(mod);
    FedSplit(chk, values, ZEROS);
    FedSplit(chk, values, ds);
    DigitsSmall(mod);
    ZerosAreSmall();
    FedIsRegister(r, ZEROS);
    XoredZeros(ds);
    RegisterXor(open, k);
    FedLinear(r, 0, ZEROS, ds);
    XorSelf(r);
    FedIsPacked(ds);
    PackedDigits(mod, 6);
    WholeRest(mod, ds);
    XorBack(open, k);
  }

  lemma WholeRest(mod: bv32, ds: seq<bv32>)
    requires |ds| == 6
    ensures Rest(mod, 6 - 6) == mod && ds[..6] == ds
  {
  }

  lemma XoredZeros(e: seq<bv32>)
    requires |e| == 6
    ensures Xored(ZEROS, e) == e
  {
    forall i | 0 <= i < 6 ensures Xored(ZEROS, e)[i] == e[i] { XorSelf(e[i]); }
  }

  lemma XorBack(a: bv32, k: bv32)
    ensures Xor(a, Xor(a, k)) == k
  {
    assert a ^ (a ^ k) == k;
  }
}
