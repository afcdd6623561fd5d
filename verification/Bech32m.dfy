/** Bech32m as BIP 350 specifies it, without the 90-character limit of addresses.

internal/invitation/bech32m.go:10-103: decoding undoes encoding, and no code garbled within six characters in a row is
taken for another. Strings are of bytes, and letters are lowered and raised as ASCII has them. */
module Bech32m {
  import opened Checksum

  /** Five bits. */
  type sym = d: nat | d < 32

  const CHARSET := "qpzry9x8gf2tvdw0s3jn54khce6mua7l"
  const CHECKED: bv32 := 0x2bc830a3
  const MAX_LENGTH := 1023

  datatype Error = ChecksumError | FormatError

  datatype Decoding = Ok(hrp: string, data: seq<sym>) | Err(error: Error)

  function Value(d: sym): bv32 { (d as bv5) as bv32 }

  function Values(data: seq<sym>): seq<bv32> { seq(|data|, i requires 0 <= i < |data| => Value(data[i])) }

  function SymbolOf(v: bv32): sym
    requires IsSmall(v)
  {
    v as int
  }

  function High(c: char): bv32 { ((c as int % 0x100) as bv32) >> 5 }
  function Low(c: char): bv32 { ((c as int % 0x100) as bv32) & 31 }

  /** The values a checksum begins with: the prefix's characters' high bits, then their low ones. */
  function Expanded(hrp: string): seq<bv32> {
    seq(|hrp|, i requires 0 <= i < |hrp| => High(hrp[i])) + [0] + seq(|hrp|, i requires 0 <= i < |hrp| => Low(hrp[i]))
  }

  method Expand(hrp: string) returns (out: seq<bv32>)
    ensures out == Expanded(hrp)
  {
    hide High, Low;
    out := [];
    for i := 0 to |hrp|
      invariant out == seq(i, j requires 0 <= j < i => High(hrp[j]))
    {
      out := out + [High(hrp[i])];
    }
    out := out + [0];
    ghost var high := out;
    for i := 0 to |hrp|
      invariant out == high + seq(i, j requires 0 <= j < i => Low(hrp[j]))
    {
      out := out + [Low(hrp[i])];
    }
  }

  // ---- Encoding ----

  function Chars(data: seq<sym>): string { seq(|data|, i requires 0 <= i < |data| => CHARSET[data[i]]) }

  function ModOf(hrp: string, data: seq<sym>): bv32 {
    Xor(Fed(1, Expanded(hrp) + Values(data) + ZEROS), CHECKED)
  }

  function Closing(mod: bv32): seq<sym> {
    DigitsSmall(mod);
    seq(6, k requires 0 <= k < 6 => SymbolOf(Digit(mod, k)))
  }

  function Encoded(hrp: string, data: seq<sym>): string {
    hrp + "1" + Chars(data) + Chars(Closing(ModOf(hrp, data)))
  }

  method Encode(hrp: string, data: seq<sym>) returns (code: string)
    ensures code == Encoded(hrp, data)
  {
    hide Xor, Fed, Digit, SymbolOf, Value, Expanded;
    var values := Expand(hrp);
    values := values + Values(data);
    var chk := Polymod(values + ZEROS);
    var mod := Xor(chk, CHECKED);
    code := hrp + "1";
    for i := 0 to |data|
      invariant code == hrp + "1" + Chars(data[..i])
    {
      code := code + [CHARSET[data[i]]];
    }
    assert data[..|data|] == data;
    ghost var body := code;
    for i := 0 to 6
      invariant code == body + Chars(Closing(mod)[..i])
    {
      DigitsSmall(mod);
      code := code + [CHARSET[Closing(mod)[i]]];
    }
    assert Closing(mod)[..6] == Closing(mod);
  }

  // ---- Decoding ----

  function LowerChar(c: char): char { if 'A' <= c <= 'Z' then (c as int + 32) as char else c }
  function UpperChar(c: char): char { if 'a' <= c <= 'z' then (c as int - 32) as char else c }
  function Lower(s: string): string { seq(|s|, i requires 0 <= i < |s| => LowerChar(s[i])) }
  function Upper(s: string): string { seq(|s|, i requires 0 <= i < |s| => UpperChar(s[i])) }

  /** Where c is in s last, or -1. */
  function LastIndex(s: string, c: char): (i: int)
    ensures -1 <= i < |s| && (i >= 0 ==> s[i] == c) && forall j | i < j < |s| :: s[j] != c
  {
    if s == [] then -1 else if s[|s| - 1] == c then |s| - 1 else LastIndex(s[..|s| - 1], c)
  }

  /** Where c is in s first, or -1. */
  function Index(s: string, c: char): (i: int)
    ensures -1 <= i < |s| && (i >= 0 ==> s[i] == c) && forall j | 0 <= j < (if i < 0 then |s| else i) :: s[j] != c
  {
    if s == [] then -1
    else
      var init := s[..|s| - 1];
      if Index(init, c) >= 0 then Index(init, c) else if s[|s| - 1] == c then |s| - 1 else -1
  }

  predicate IsPrintable(s: string) { forall i | 0 <= i < |s| :: 33 <= s[i] as int <= 126 }
  predicate IsInCharset(s: string) { forall i | 0 <= i < |s| :: Index(CHARSET, s[i]) >= 0 }

  function Symbols(s: string): seq<sym>
    requires IsInCharset(s)
  {
    seq(|s|, i requires 0 <= i < |s| => Index(CHARSET, s[i]))
  }

  function Decoded(s: string): Decoding {
    if |s| > MAX_LENGTH || (Lower(s) != s && Upper(s) != s) then Err(FormatError)
    else
      var t := Lower(s);
      var separator := LastIndex(t, '1');
      if separator < 1 || separator + 7 > |t| || !IsPrintable(t[..separator]) || !IsInCharset(t[separator + 1..]) then Err(FormatError)
      else Checked(t[..separator], Symbols(t[separator + 1..]))
  }

  function Checked(hrp: string, data: seq<sym>): Decoding
    requires |data| >= 6
  {
    if Fed(1, Expanded(hrp) + Values(data)) != CHECKED then Err(ChecksumError) else Ok(hrp, data[..|data| - 6])
  }

  /** The human-readable part and the 5-bit data, without the checksum. */
  method Decode(code: string) returns (r: Decoding)
    ensures r == Decoded(code)
  {
    hide Fed, Value, Expanded, Index, LastIndex, Lower, Upper;
    if |code| > MAX_LENGTH || (Lower(code) != code && Upper(code) != code) { return Err(FormatError); }
    var s := Lower(code);
    var separator := LastIndex(s, '1');
    if separator < 1 || separator + 7 > |s| { return Err(FormatError); }
    var hrp := s[..separator];
    for i := 0 to |hrp|
      invariant IsPrintable(hrp[..i])
    {
      if hrp[i] as int < 33 || hrp[i] as int > 126 {
        assert !IsPrintable(hrp);
        return Err(FormatError);
      }
    }
    assert hrp[..|hrp|] == hrp;
    var rest := s[separator + 1..];
    var data: seq<sym> := [];
    for i := 0 to |rest|
      invariant IsInCharset(rest[..i]) && data == Symbols(rest[..i])
    {
      var d := Index(CHARSET, rest[i]);
      if d < 0 {
        assert !IsInCharset(rest);
        return Err(FormatError);
      }
      data := data + [d];
    }
    assert rest[..|rest|] == rest;
    var values := Expand(hrp);
    var chk := Polymod(values + Values(data));
    return if chk != CHECKED then Err(ChecksumError) else Ok(hrp, data[..|data| - 6]);
  }

  // ---- Decoding undoes encoding ----

  lemma CharsetDistinct(i: nat, j: nat)
    requires i < j < 32
    ensures CHARSET[i] != CHARSET[j]
  {
  }

  lemma CharsetLower(d: sym)
    ensures LowerChar(CHARSET[d]) == CHARSET[d] && CHARSET[d] != '1'
  {
  }

  lemma IndexOfChar(d: sym)
    ensures Index(CHARSET, CHARSET[d]) == d
  {
    var i := Index(CHARSET, CHARSET[d]);
    if i < d { CharsetDistinct(i, d); } else if d < i {
      CharsetDistinct(d, i);
    }
  }

  lemma SymbolsOfChars(data: seq<sym>)
    ensures IsInCharset(Chars(data)) && Symbols(Chars(data)) == data
    ensures Lower(Chars(data)) == Chars(data) && '1' !in Chars(data)
  {
    forall i | 0 <= i < |data|
      ensures Index(CHARSET, Chars(data)[i]) == data[i] && LowerChar(Chars(data)[i]) == Chars(data)[i] && Chars(data)[i] != '1'
    {
      IndexOfChar(data[i]);
      CharsetLower(data[i]);
    }
  }

  lemma ValueOfSymbol(v: bv32)
    requires IsSmall(v)
    ensures Value(SymbolOf(v)) == v
  {
  }

  lemma LastIndexIs(s: string, c: char, i: nat)
    requires i < |s| && s[i] == c && forall j | i < j < |s| :: s[j] != c
    ensures LastIndex(s, c) == i
  {
    var k := LastIndex(s, c);
    hide LastIndex;
  }

  /** The last separator of a code is the one before its data. */
  lemma SeparatorIs(t: string, hrp: string, rest: string)
    requires t == hrp + "1" + rest && IsInCharset(rest)
    ensures LastIndex(t, '1') == |hrp| && t[..|hrp|] == hrp && t[|hrp| + 1..] == rest
  {
    forall j | |hrp| < j < |t| ensures t[j] != '1' {
      assert t[j] == rest[j - |hrp| - 1];
      NoOneInCharset(rest[j - |hrp| - 1]);
    }
    assert t[|hrp|] == '1';
    hide LastIndex, IsInCharset;
    LastIndexIs(t, '1', |hrp|);
  }

  /** A code in one case, its parts told apart. */
  lemma DecodedParts(s: string, hrp: string, rest: string)
    requires |s| <= MAX_LENGTH && (Lower(s) == s || Upper(s) == s) && Lower(s) == hrp + "1" + rest
    requires hrp != "" && |rest| >= 6 && IsPrintable(hrp) && IsInCharset(rest)
    ensures Decoded(s) == Checked(hrp, Symbols(rest))
  {
    SeparatorIs(Lower(s), hrp, rest);
    hide LastIndex, IsInCharset, IsPrintable, Symbols, Checked, Lower, Upper;
  }

  lemma NoOneInCharset(c: char)
    requires Index(CHARSET, c) >= 0
    ensures c != '1' && CHARSET[Index(CHARSET, c)] == c
  {
    var d: sym := Index(CHARSET, c);
    CharsetLower(d);
    hide Index;
  }

  /** A code made of any printable prefix without capital letters, and any data that with it is not too long, is decoded as
      what it was made of. */
  lemma DecodingUndoesEncoding(hrp: string, data: seq<sym>)
    requires hrp != "" && IsPrintable(hrp) && Lower(hrp) == hrp && |hrp| + 7 + |data| <= MAX_LENGTH
    ensures Decoded(Encoded(hrp, data)) == Ok(hrp, data)
  {
    var all := data + Closing(ModOf(hrp, data));
    var s := Encoded(hrp, data);
    EncodedIs(hrp, data, Closing(ModOf(hrp, data)));
    SymbolsOfChars(all);
    LowerParts(hrp, Chars(all));
    CharsLength(all);
    assert |Closing(ModOf(hrp, data))| == 6;
    hide *;
    DecodedParts(s, hrp, Chars(all));
    ClosingCloses(hrp, data);
  }

  lemma EncodedIs(hrp: string, data: seq<sym>, closing: seq<sym>)
    requires closing == Closing(ModOf(hrp, data))
    ensures Encoded(hrp, data) == hrp + "1" + Chars(data + closing)
  {
    assert Chars(data + closing) == Chars(data) + Chars(closing);
    hide Chars, Closing, ModOf;
  }

  lemma CharsLength(data: seq<sym>)
    ensures |Chars(data)| == |data|
  {
  }

  lemma LowerParts(hrp: string, rest: string)
    ensures Lower(hrp + "1" + rest) == Lower(hrp) + "1" + Lower(rest)
  {
  }

  lemma ClosingCloses(hrp: string, data: seq<sym>)
    ensures |Closing(ModOf(hrp, data))| == 6
    ensures Checked(hrp, data + Closing(ModOf(hrp, data))) == Ok(hrp, data)
  {
    var mod := ModOf(hrp, data);
    var all := data + Closing(mod);
    var head := Expanded(hrp) + Values(data);
    ClosingIs(mod);
    assert Values(all) == Values(data) + Values(Closing(mod));
    assert Expanded(hrp) + Values(all) == head + Digits(mod);
    assert IsRegister(CHECKED);
    hide Closing, Fed, Xor, Value, Expanded, Digits, Values;
    DigitsClose(1, head, CHECKED);
    assert all[..|all| - 6] == data;
  }

  lemma ClosingIs(mod: bv32)
    ensures |Closing(mod)| == 6 && Values(Closing(mod)) == Digits(mod)
  {
    DigitsSmall(mod);
    forall k | 0 <= k < 6 ensures Values(Closing(mod))[k] == Digits(mod)[k] {
      ValueOfSymbol(Digit(mod, k));
    }
  }

  // ---- What is garbled is noticed ----

  lemma BitsRead(d: sym)
    ensures (d as bv5) as int == d
  {
  }

  lemma ValueInjective(d: sym, e: sym)
    requires Value(d) == Value(e)
    ensures d == e
  {
    BitsInjective(d as bv5, e as bv5);
    BitsRead(d);
    BitsRead(e);
  }

  lemma BitsInjective(a: bv5, b: bv5)
    requires a as bv32 == b as bv32
    ensures a == b
  {
  }

  lemma ValueSmall(d: sym)
    ensures IsSmall(Value(d))
  {
    BitsSmall(d as bv5);
  }

  lemma BitsSmall(a: bv5)
    ensures IsSmall(a as bv32)
  {
  }

  lemma ValuesSmall(data: seq<sym>)
    ensures Small(Values(data))
  {
    hide Value, IsSmall;
    forall v | v in Values(data) ensures IsSmall(v) {
      var i :| 0 <= i < |data| && v == Value(data[i]);
      ValueSmall(data[i]);
    }
  }

  lemma SymbolsDiffer(c: char, d: char)
    requires Index(CHARSET, c) >= 0 && Index(CHARSET, d) >= 0 && c != d
    ensures Index(CHARSET, c) != Index(CHARSET, d)
  {
    NoOneInCharset(c);
    NoOneInCharset(d);
  }

  lemma SymbolsWindow(x: string, y: string, at: nat)
    requires |x| == |y| && at + 6 <= |x| && IsInCharset(x) && IsInCharset(y) && x != y
    requires x[..at] == y[..at] && x[at + 6..] == y[at + 6..]
    ensures var (d, e) := (Symbols(x), Symbols(y)); |d| == |e| == |x| && d[..at] == e[..at] && d[at + 6..] == e[at + 6..] && d != e
  {
    hide Index;
    var (d, e) := (Symbols(x), Symbols(y));
    assert d[..at] == Symbols(x[..at]) && e[..at] == Symbols(y[..at]);
    assert d[at + 6..] == Symbols(x[at + 6..]) && e[at + 6..] == Symbols(y[at + 6..]);
    var i :| 0 <= i < |x| && x[i] != y[i];
    SymbolsDiffer(x[i], y[i]);
    assert d[i] != e[i];
  }

  lemma ValuesWindow(head: seq<bv32>, d: seq<sym>, e: seq<sym>, at: nat)
    requires |d| == |e| && at + 6 <= |d| && d[..at] == e[..at] && d[at + 6..] == e[at + 6..] && d != e
    ensures var (v, w, n) := (head + Values(d), head + Values(e), |head| + at);
      |v| == |w| && n + 6 <= |v| && Small(v[n..]) && Small(w[n..]) && v[..n] == w[..n] && v[n + 6..] == w[n + 6..] && v != w
  {
    hide Value, IsSmall;
    ValuesSmall(d[at..]);
    ValuesSmall(e[at..]);
    var (v, w, n) := (head + Values(d), head + Values(e), |head| + at);
    assert v[n..] == Values(d[at..]) && w[n..] == Values(e[at..]);
    assert v[..n] == head + Values(d[..at]) && w[..n] == head + Values(e[..at]);
    assert v[n + 6..] == Values(d[at + 6..]) && w[n + 6..] == Values(e[at + 6..]);
    var i :| 0 <= i < |d| && d[i] != e[i];
    if Value(d[i]) == Value(e[i]) { ValueInjective(d[i], e[i]); }
    assert v[|head| + i] != w[|head| + i];
  }

  /** Two data parts that differ, and only within six characters in a row, are not both checked. */
  lemma OneIsChecked(hrp: string, x: string, y: string, at: nat)
    requires |x| == |y| && at + 6 <= |x| && IsInCharset(x) && IsInCharset(y) && x != y
    requires x[..at] == y[..at] && x[at + 6..] == y[at + 6..]
    requires Checked(hrp, Symbols(x)).Ok?
    ensures Checked(hrp, Symbols(y)) == Err(ChecksumError)
  {
    var head := Expanded(hrp);
    hide Symbols, IsInCharset, Values, Expanded, Fed, Small;
    SymbolsWindow(x, y, at);
    ValuesWindow(head, Symbols(x), Symbols(y), at);
    BurstChangesChecksum(1, head + Values(Symbols(x)), head + Values(Symbols(y)), |head| + at);
  }

  /** A code changed only within six characters of its data in a row, each still one of the charset's, is no code: the
      checksum says so. So is one with two neighbours swapped, or with a single character replaced. */
  lemma GarbledIsNoticed(s: string, g: string, hrp: string, x: string, y: string, at: nat)
    requires Decoded(s).Ok? && |g| == |s| && (Lower(g) == g || Upper(g) == g)
    requires Lower(s) == hrp + "1" + x && Lower(g) == hrp + "1" + y && IsInCharset(x) && IsInCharset(y)
    requires at + 6 <= |x| && x[..at] == y[..at] && x[at + 6..] == y[at + 6..] && x != y
    ensures Decoded(g) == Err(ChecksumError)
  {
    assert |s| <= MAX_LENGTH && (Lower(s) == s || Upper(s) == s);
    assert |x| == |y|;
    OkPrefix(s, hrp, x);
    hide *;
    DecodedParts(s, hrp, x);
    DecodedParts(g, hrp, y);
    OneIsChecked(hrp, x, y, at);
  }

  lemma OkPrefix(s: string, hrp: string, x: string)
    requires Decoded(s).Ok? && Lower(s) == hrp + "1" + x && IsInCharset(x)
    ensures hrp != "" && IsPrintable(hrp)
  {
    OkTested(s);
    hide *;
    SeparatorIs(Lower(s), hrp, x);
  }

  lemma OkTested(s: string)
    requires Decoded(s).Ok?
    ensures LastIndex(Lower(s), '1') >= 1 && IsPrintable(Lower(s)[..LastIndex(Lower(s), '1')])
  {
    hide LastIndex, IsInCharset, IsPrintable, Symbols, Checked, Lower, Upper;
  }

  /** In particular, a lower-case code with one character of its data replaced by another of the charset. */
  lemma ReplacedIsNoticed(s: string, p: nat, c: char)
    requires Decoded(s).Ok? && Lower(s) == s && LastIndex(s, '1') < p < |s|
    requires Index(CHARSET, c) >= 0 && c != s[p]
    ensures Decoded(s[p := c]) == Err(ChecksumError)
  {
    var sep := LastIndex(s, '1');
    var (hrp, x, i) := (s[..sep], s[sep + 1..], p - sep - 1);
    var (g, y) := (s[p := c], x[i := c]);
    var at := if i < |x| - 6 then i else |x| - 6;
    DecodedLong(s);
    ReplacedParts(s, sep, p, c);
    StillLower(s, p, c);
    StillInCharset(x, i, c);
    hide *;
    assert x[..at] == y[..at] && x[at + 6..] == y[at + 6..] && x[i] == s[p];
    GarbledIsNoticed(s, g, hrp, x, y, at);
  }

  lemma DecodedLong(s: string)
    requires Decoded(s).Ok? && Lower(s) == s
    ensures var sep := LastIndex(s, '1'); 1 <= sep && sep + 7 <= |s| && IsInCharset(s[sep + 1..])
  {
    hide Lower, Upper, LastIndex, IsInCharset, IsPrintable, Symbols, Checked;
  }

  lemma ReplacedParts(s: string, sep: nat, p: nat, c: char)
    requires sep < p < |s| && s[sep] == '1'
    ensures s == s[..sep] + "1" + s[sep + 1..] && s[p := c] == s[..sep] + "1" + s[sep + 1..][p - sep - 1 := c]
  {
  }

  lemma StillLower(s: string, p: nat, c: char)
    requires Lower(s) == s && p < |s| && Index(CHARSET, c) >= 0
    ensures Lower(s[p := c]) == s[p := c]
  {
    NoOneInCharset(c);
    CharsetLower(Index(CHARSET, c));
    hide Index;
    forall j | 0 <= j < |s| ensures LowerChar(s[j]) == s[j] { assert Lower(s)[j] == LowerChar(s[j]); }
  }

  lemma StillInCharset(x: string, i: nat, c: char)
    requires IsInCharset(x) && i < |x| && Index(CHARSET, c) >= 0
    ensures IsInCharset(x[i := c])
  {
    hide Index;
  }
}
