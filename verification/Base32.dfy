/**
 * Base32 as in section 6 of RFC 4648, without padding on output. The reference is on bit
 * strings; the loops keep an accumulator that is never masked and wraps at 32 bits.
 */
module Base32 {
  import opened Basics
  import opened Encoding
  import opened Text

  type Bits = seq<bool>

  // ---- Numbers and their bits ----

  function Pow2(n: nat): (p: nat)
    ensures p > 0
  {
    if n == 0 then 1 else 2 * Pow2(n - 1)
  }

  function Num(bits: Bits): (n: nat)
    ensures n < Pow2(|bits|)
  {
    if bits == [] then 0 else 2 * Num(bits[..|bits| - 1]) + if bits[|bits| - 1] then 1 else 0
  }

  /** The `count` lowest bits of `n`, highest first. */
  function BitsOf(n: nat, count: nat): (bits: Bits)
    ensures |bits| == count
  {
    if count == 0 then [] else BitsOf(n / 2, count - 1) + [n % 2 == 1]
  }

  lemma {:induction false} NumOfBits(n: nat, count: nat)
    requires n < Pow2(count)
    ensures Num(BitsOf(n, count)) == n
  {
    if count > 0 {
      NumOfBits(n / 2, count - 1);
    }
  }

  lemma {:induction false} BitsOfNum(bits: Bits)
    ensures BitsOf(Num(bits), |bits|) == bits
  {
    hide Pow2;
    if bits != [] {
      var n := |bits| - 1;
      BitsOfNum(bits[..n]);
      assert Num(bits) / 2 == Num(bits[..n]) && (Num(bits) % 2 == 1 <==> bits[n]);
      assert bits == bits[..n] + [bits[n]];
    }
  }

  lemma {:induction false} Doubled(x: nat, p: nat)
    ensures x * (2 * p) == 2 * (x * p)
  {
  }

  lemma {:induction false} DoubledSum(x: nat, p: nat, y: nat, last: nat)
    ensures 2 * (x * p + y) + last == x * (2 * p) + (2 * y + last)
  {
    Doubled(x, p);
  }

  lemma {:induction false} PowerStep(n: nat)
    requires n > 0
    ensures Pow2(n) == 2 * Pow2(n - 1)
  {
  }

  lemma {:induction false} NumOfNothing()
    ensures Num([]) == 0 && Pow2(0) == 1
  {
  }

  lemma {:induction false} NumAppend(a: Bits, b: Bits)
    ensures Num(a + b) == Num(a) * Pow2(|b|) + Num(b)
  {
    hide Num, Pow2;
    if b == [] {
      NumOfNothing();
      assert a + b == a;
    } else {
      var c := b[..|b| - 1];
      PowerStep(|b|);
      NumAppend(a, c);
      DoubledSum(Num(a), Pow2(|c|), Num(c), if b[|b| - 1] then 1 else 0);
      NumSnoc(a + c, b[|b| - 1]);
      NumSnoc(c, b[|b| - 1]);
      assert a + c + [b[|b| - 1]] == a + b && c + [b[|b| - 1]] == b;
    }
  }

  lemma {:induction false} NumSnoc(a: Bits, last: bool)
    ensures Num(a + [last]) == 2 * Num(a) + if last then 1 else 0
  {
    assert (a + [last])[..|a|] == a;
  }

  lemma {:induction false} SmallPowers()
    ensures Pow2(0) == 1 && Pow2(1) == 2 && Pow2(2) == 4 && Pow2(3) == 8 && Pow2(4) == 16
    ensures Pow2(5) == 32 && Pow2(6) == 64 && Pow2(7) == 128 && Pow2(8) == 256
    ensures Pow2(9) == 512 && Pow2(10) == 1024 && Pow2(11) == 2048 && Pow2(12) == 4096
  {
    assert Pow2(4) == 16;
    assert Pow2(8) == 16 * Pow2(4);
    assert Pow2(12) == 16 * Pow2(8);
  }

  // ---- The reference ----

  function ByteBits(bytes: seq<byte>): (bits: Bits)
    ensures |bits| == 8 * |bytes|
  {
    if bytes == [] then [] else BitsOf(bytes[0], 8) + ByteBits(bytes[1..])
  }

  function Symbol(n: nat): char
    requires n < 32
  {
    if n < 26 then ('A' as int + n) as char else ('2' as int + n - 26) as char
  }

  function SymbolValue(c: char): (r: Option<nat>)
    ensures r.Some? ==> r.value < 32
  {
    if 'A' <= c <= 'Z' then Some(c as int - 'A' as int)
    else if '2' <= c <= '7' then Some(c as int - '2' as int + 26)
    else None
  }

  predicate IsSymbol(c: char) {
    SymbolValue(c).Some?
  }

  /** Five bits a symbol; the last group is filled up with zeros. */
  function Symbols(bits: Bits): (s: string)
    ensures |s| == (|bits| + 4) / 5
    decreases |bits|
  {
    if bits == [] then ""
    else if |bits| < 5 then (SmallPowers(); [Symbol(Num(bits + Zeros(5 - |bits|)))])
    else (SmallPowers(); [Symbol(Num(bits[..5]))] + Symbols(bits[5..]))
  }

  function Zeros(n: nat): (bits: Bits)
    ensures |bits| == n && Num(bits) == 0
  {
    if n == 0 then [] else Zeros(n - 1) + [false]
  }

  function Encode(bytes: seq<byte>): string {
    Symbols(ByteBits(bytes))
  }

  function SymbolBits(s: string): (bits: Bits)
    requires forall c <- s :: IsSymbol(c)
    ensures |bits| == 5 * |s|
  {
    if s == "" then [] else (assert IsSymbol(s[0]); BitsOf(SymbolValue(s[0]).value, 5) + SymbolBits(s[1..]))
  }

  /** Eight bits a byte; what is left over at the end is dropped. */
  function Bytes(bits: Bits): (r: seq<byte>)
    ensures |r| == |bits| / 8
    decreases |bits|
  {
    if |bits| < 8 then [] else (SmallPowers(); [Num(bits[..8])] + Bytes(bits[8..]))
  }

  // ---- Cleaning ----

  /** `replace(/=+$/, '')`. */
  function DropPadding(s: string): string {
    if s != "" && s[|s| - 1] == '=' then DropPadding(s[..|s| - 1]) else s
  }

  /** `replace(/\s/g, '')`. */
  function WithoutSpace(s: string): string {
    if s == "" then "" else (if IsSpace(s[0]) then "" else [s[0]]) + WithoutSpace(s[1..])
  }

  function Cleaned(encoded: string): string {
    Upper(WithoutSpace(DropPadding(encoded)))
  }

  datatype Corrupt = InvalidCharacter

  function Decode(encoded: string): Result<seq<byte>, Corrupt> {
    var s := Cleaned(encoded);
    if forall c <- s :: IsSymbol(c) then Ok(Bytes(SymbolBits(s))) else Err(InvalidCharacter)
  }

  // ---- Round trip ----

  lemma {:induction false} SymbolReads(n: nat)
    requires n < 32
    ensures SymbolValue(Symbol(n)) == Some(n)
  {
  }

  /** One symbol carries its five bits. */
  lemma {:induction false} SymbolCarries(bits: Bits)
    requires |bits| == 5
    ensures Num(bits) < 32
    ensures var c := Symbol(Num(bits)); IsSymbol(c) && BitsOf(SymbolValue(c).value, 5) == bits
  {
    SmallPowers();
    SymbolReads(Num(bits));
    BitsOfNum(bits);
  }

  /** Reading the symbols gives the bits and fewer than five zeros. */
  lemma {:induction false} FullGroup(bits: Bits)
    requires |bits| >= 5 && forall c <- Symbols(bits[5..]) :: IsSymbol(c)
    ensures forall c <- Symbols(bits) :: IsSymbol(c)
    ensures forall padding :: SymbolBits(Symbols(bits[5..])) == bits[5..] + padding ==>
              SymbolBits(Symbols(bits)) == bits + padding
  {
    hide Num, BitsOf, Symbol, SymbolValue, IsSymbol, Pow2, SymbolBits;
    SymbolCarries(bits[..5]);
    FirstSymbolReads(Symbol(Num(bits[..5])), Symbols(bits[5..]));
    forall padding | SymbolBits(Symbols(bits[5..])) == bits[5..] + padding
      ensures SymbolBits(Symbols(bits)) == bits + padding
    {
      assert bits + padding == bits[..5] + (bits[5..] + padding);
    }
  }

  lemma {:induction false} SymbolsRead(bits: Bits)
    ensures var s := Symbols(bits);
            && (forall c <- s :: IsSymbol(c))
            && SymbolBits(s) == bits + Zeros((5 - |bits| % 5) % 5)
    decreases |bits|
  {
    hide Num, BitsOf, Symbol, SymbolValue, IsSymbol, Pow2;
    if bits == [] {
    } else if |bits| < 5 {
      SymbolCarries(bits + Zeros(5 - |bits|));
      LastGroup(bits);
    } else {
      hide Symbols, SymbolBits, Zeros;
      SymbolsRead(bits[5..]);
      FullGroup(bits);
      assert (|bits| - 5) % 5 == |bits| % 5;
    }
  }

  lemma {:induction false} FirstSymbolReads(c: char, rest: string)
    requires IsSymbol(c) && forall x <- rest :: IsSymbol(x)
    ensures var s := [c] + rest;
            (forall x <- s :: IsSymbol(x)) && SymbolBits(s) == BitsOf(SymbolValue(c).value, 5) + SymbolBits(rest)
  {
    hide BitsOf;
    assert ([c] + rest)[1..] == rest;
  }

  lemma {:induction false} LastGroup(bits: Bits)
    requires 0 < |bits| < 5
    requires Num(bits + Zeros(5 - |bits|)) < 32
    requires var c := Symbol(Num(bits + Zeros(5 - |bits|)));
             IsSymbol(c) && BitsOf(SymbolValue(c).value, 5) == bits + Zeros(5 - |bits|)
    ensures var s := Symbols(bits);
            (forall c <- s :: IsSymbol(c)) && SymbolBits(s) == bits + Zeros(5 - |bits|)
  {
    hide Num, BitsOf, Symbol, SymbolValue, IsSymbol, Pow2, Zeros;
    var c := Symbol(Num(bits + Zeros(5 - |bits|)));
    assert Symbols(bits) == [c] && [c][1..] == "";
    FirstSymbolReads(c, "");
    assert [c] + "" == [c];
  }

  lemma {:induction false} BytesRead(bytes: seq<byte>, extra: Bits)
    requires |extra| < 8
    ensures Bytes(ByteBits(bytes) + extra) == bytes
  {
    SmallPowers();
    hide Pow2, Num, BitsOf;
    if bytes == [] {
      assert ByteBits(bytes) + extra == extra;
    } else {
      var bits := ByteBits(bytes) + extra;
      assert bits[..8] == BitsOf(bytes[0], 8);
      assert bits[8..] == ByteBits(bytes[1..]) + extra;
      NumOfBits(bytes[0], 8);
      BytesRead(bytes[1..], extra);
    }
  }

  lemma {:induction false} SymbolsAreSymbols(bits: Bits)
    ensures forall c <- Symbols(bits) :: IsSymbol(c)
  {
    SymbolsRead(bits);
  }

  lemma {:induction false} NoSpaceInSymbols(s: string)
    requires forall c <- s :: IsSymbol(c)
    ensures WithoutSpace(s) == s && Upper(s) == s && DropPadding(s) == s
  {
    assert s != "" ==> IsSymbol(s[|s| - 1]);
    NothingToRemove(s);
    assert forall i :: 0 <= i < |s| ==> IsSymbol(s[i]);
  }

  lemma {:induction false} NothingToRemove(s: string)
    requires forall c <- s :: IsSymbol(c)
    ensures WithoutSpace(s) == s
  {
    if s != "" {
      assert IsSymbol(s[0]);
      NothingToRemove(s[1..]);
    }
  }

  lemma {:induction false} SymbolsDecode(bytes: seq<byte>, encoded: string)
    requires Cleaned(encoded) == Encode(bytes)
    ensures Decode(encoded) == Ok(bytes)
  {
    hide Symbols, Bytes, IsSymbol, SymbolBits;
    SymbolsRead(ByteBits(bytes));
    BytesRead(bytes, Zeros((5 - |ByteBits(bytes)| % 5) % 5));
  }

  /** Every byte string comes back, from ceil(8n / 5) alphabet characters. */
  lemma {:induction false} DecodeUndoesEncode(bytes: seq<byte>)
    ensures Decode(Encode(bytes)) == Ok(bytes)
    ensures |Encode(bytes)| == (8 * |bytes| + 4) / 5 && forall c <- Encode(bytes) :: IsSymbol(c)
  {
    hide Symbols, IsSymbol;
    SymbolsAreSymbols(ByteBits(bytes));
    NoSpaceInSymbols(Encode(bytes));
    SymbolsDecode(bytes, Encode(bytes));
  }

  lemma {:induction false} PaddingDrops(s: string, padding: string)
    requires forall i :: 0 <= i < |padding| ==> padding[i] == '='
    requires s != "" ==> s[|s| - 1] != '='
    ensures DropPadding(s + padding) == s
  {
    if padding == "" {
      assert s + padding == s;
    } else {
      assert (s + padding)[..|s + padding| - 1] == s + padding[..|padding| - 1];
      PaddingDrops(s, padding[..|padding| - 1]);
    }
  }

  lemma {:induction false} WithoutSpaceKeeps(s: string, c: char)
    requires c in s && !IsSpace(c)
    ensures c in WithoutSpace(s)
  {
    if s[0] != c {
      WithoutSpaceKeeps(s[1..], c);
    }
  }

  lemma {:induction false} UpperKeepsEquals(s: string)
    requires '=' in s
    ensures '=' in Upper(s)
  {
    var i :| 0 <= i < |s| && s[i] == '=';
    assert Upper(s)[i] == '=';
  }

  /** Spaces anywhere, lower case and trailing padding do no harm. */
  lemma {:induction false} DecodeForgives(bytes: seq<byte>, typed: string, padding: string)
    requires Upper(WithoutSpace(typed)) == Encode(bytes)
    requires forall i :: 0 <= i < |padding| ==> padding[i] == '='
    ensures Decode(typed + padding) == Ok(bytes)
  {
    hide Encode;
    DecodeUndoesEncode(bytes);
    assert !IsSymbol('=') && !IsSpace('=');
    if typed != "" && typed[|typed| - 1] == '=' {
      WithoutSpaceKeeps(typed, '=');
      UpperKeepsEquals(WithoutSpace(typed));
      assert false;
    }
    PaddingDrops(typed, padding);
    SymbolsDecode(bytes, typed + padding);
  }

  lemma {:induction false} WithoutSpaceAppend(s: string, t: string)
    ensures WithoutSpace(s + t) == WithoutSpace(s) + WithoutSpace(t)
  {
    if s == "" {
      assert s + t == t;
    } else {
      assert (s + t)[1..] == s[1..] + t;
      WithoutSpaceAppend(s[1..], t);
    }
  }

  /** Padding with a space after it is not trailing, and is refused. */
  lemma {:induction false} PaddingBeforeASpaceIsRefused(encoded: string)
    ensures Decode(encoded + "= ") == Err(InvalidCharacter)
  {
    var s := encoded + "= ";
    assert DropPadding(s) == s;
    WithoutSpaceAppend(encoded, "= ");
    assert WithoutSpace("= ") == "=" + WithoutSpace(" ") by { assert "= "[1..] == " "; }
    assert WithoutSpace(s)[|WithoutSpace(encoded)|] == '=';
    var c := Upper(WithoutSpace(s))[|WithoutSpace(encoded)|];
    assert c == '=' && c in Cleaned(s) && !IsSymbol(c);
  }

  function WithoutEquals(s: string): string {
    if s == "" then "" else (if s[0] == '=' then "" else [s[0]]) + WithoutEquals(s[1..])
  }

  lemma {:induction false} WithoutEqualsAppend(s: string, t: string)
    ensures WithoutEquals(s + t) == WithoutEquals(s) + WithoutEquals(t)
  {
    if s == "" {
      assert s + t == t;
    } else {
      assert (s + t)[1..] == s[1..] + t;
      WithoutEqualsAppend(s[1..], t);
    }
  }

  lemma {:induction false} NoEquals(s: string)
    requires '=' !in s
    ensures WithoutEquals(s) == s
  {
    if s != "" {
      NoEquals(s[1..]);
      assert s == [s[0]] + s[1..];
    }
  }

  lemma {:induction false} DroppedPaddingIsEquals(s: string)
    ensures WithoutEquals(DropPadding(s)) == WithoutEquals(s)
  {
    if s != "" && s[|s| - 1] == '=' {
      DroppedPaddingIsEquals(s[..|s| - 1]);
      WithoutEqualsAppend(s[..|s| - 1], "=");
      assert s == s[..|s| - 1] + "=";
    }
  }

  /**
   * Whatever spaces, lower case and padding are typed into an encoding, it is decoded exactly
   * when no padding is left once the trailing run is dropped, and refused otherwise.
   */
  lemma {:induction false} PaddingOnlyAtTheEnd(bytes: seq<byte>, typed: string)
    requires Upper(WithoutSpace(WithoutEquals(typed))) == Encode(bytes)
    ensures Decode(typed) == if '=' in DropPadding(typed) then Err(InvalidCharacter) else Ok(bytes)
  {
    hide Encode;
    DecodeUndoesEncode(bytes);
    DroppedPaddingIsEquals(typed);
    assert !IsSymbol('=') && !IsSpace('=');
    if '=' in DropPadding(typed) {
      WithoutSpaceKeeps(DropPadding(typed), '=');
      UpperKeepsEquals(WithoutSpace(DropPadding(typed)));
    } else {
      NoEquals(DropPadding(typed));
      SymbolsDecode(bytes, typed);
    }
  }

  // ---- The loops ----

  /** `<<` keeps the low 32 bits. */
  const WORD := 0x1_0000_0000

  function ShiftIn(value: nat, width: nat, low: nat): nat {
    value * Pow2(width) % WORD + low
  }

  lemma {:induction false} AtLeastOnce(k: int, d: int)
    requires k >= 1 && d > 0
    ensures k * d >= d
  {
  }

  lemma {:induction false} DivModIs(a: int, d: int, q: int, r: int)
    requires 0 <= r < d && a == q * d + r
    ensures a / d == q && a % d == r
  {
    var x, y := a / d, a % d;
    assert a == x * d + y;
    assert (q - x) * d == y - r;
    if q > x {
      AtLeastOnce(q - x, d);
    } else if q < x {
      AtLeastOnce(x - q, d);
    }
  }

  /** The top of the pending bits, when `count` is the size of one symbol or byte. */
  lemma {:induction false} TakesTheTop(value: nat, x: nat, y: nat, count: nat, p: nat)
    requires p > 0 && x < count && y < p && value % (count * p) == x * p + y
    ensures value / p % count == x && value % p == y
  {
    var q := value / (count * p);
    assert value == q * (count * p) + x * p + y;
    assert q * (count * p) + x * p == (q * count + x) * p;
    DivModIs(value, p, q * count + x, y);
    DivModIs(q * count + x, count, q, x);
  }

  lemma {:induction false} ShiftDropsTheTop(value: nat, k: nat, m: nat)
    requires k > 0 && m > 0 && k * m == WORD
    ensures value * k % WORD == value % m * k
    ensures value % m * k + k <= WORD
  {
    var q, r := value / m, value % m;
    assert value * k == q * WORD + r * k by {
      assert (q * m + r) * k == q * (k * m) + r * k;
    }
    assert r * k + k <= WORD by {
      assert (r + 1) * k <= m * k;
    }
    DivModIs(value * k, WORD, q, r * k);
  }

  /** Shifting past the word's end loses only bits above the pending ones. */
  lemma {:induction false} ShiftKeepsThePending(value: nat, k: nat, p: nat, n: nat, low: nat)
    requires low < k && p > 0 && k * p * n == WORD
    ensures (value * k % WORD + low) % (p * k) == value % p * k + low
    ensures value * k % WORD + low < WORD
  {
    var m := p * n;
    assert k * m == WORD by {
      assert k * p * n == k * (p * n);
    }
    assert m > 0;
    ShiftDropsTheTop(value, k, m);
    RemainderOfRemainder(value, p, n);
    ScaledRemainder(value % m, k, p, low);
  }

  lemma {:induction false} RemainderOfRemainder(value: nat, p: nat, n: nat)
    requires p > 0 && p * n > 0
    ensures value % (p * n) % p == value % p
  {
    var q, r := value / (p * n), value % (p * n);
    var t, s := r / p, r % p;
    assert value == q * (p * n) + (t * p + s);
    assert q * (p * n) + (t * p + s) == (q * n + t) * p + s;
    DivModIs(value, p, q * n + t, s);
  }

  lemma {:induction false} ScaledRemainder(r: nat, k: nat, p: nat, low: nat)
    requires low < k && p > 0
    ensures p * k > 0 && (r * k + low) % (p * k) == r % p * k + low
  {
    var t, s := r / p, r % p;
    assert p * k > 0 by {
      AtLeastOnce(p, k);
    }
    assert s * k + k <= p * k by {
      assert (s + 1) * k <= p * k;
    }
    assert r * k + low == t * (p * k) + (s * k + low) by {
      assert (t * p + s) * k == t * (p * k) + s * k;
    }
    DivModIs(r * k + low, p * k, t, s * k + low);
  }

  lemma {:induction false} PushesEight(value: nat, n: nat, b: nat)
    requires n < 5 && b < 256
    ensures ShiftIn(value, 8, b) % Pow2(n + 8) == value % Pow2(n) * 256 + b
    ensures ShiftIn(value, 8, b) < WORD
  {
    SmallPowers();
    var p := Pow2(n);
    assert Pow2(n + 8) == p * 256;
    assert 256 * p * (0x100_0000 / p) == WORD;
    ShiftKeepsThePending(value, 256, p, 0x100_0000 / p, b);
  }

  lemma {:induction false} PushesFive(value: nat, n: nat, b: nat)
    requires n < 8 && b < 32
    ensures ShiftIn(value, 5, b) % Pow2(n + 5) == value % Pow2(n) * 32 + b
    ensures ShiftIn(value, 5, b) < WORD
  {
    SmallPowers();
    var p := Pow2(n);
    assert Pow2(n + 5) == p * 32;
    assert 32 * p * (0x800_0000 / p) == WORD;
    ShiftKeepsThePending(value, 32, p, 0x800_0000 / p, b);
  }

  lemma {:induction false} LastFive(value: nat, n: nat)
    requires 0 < n < 5
    ensures ShiftIn(value, 5 - n, 0) % 32 == value % Pow2(n) * Pow2(5 - n)
  {
    SmallPowers();
    var p, k := Pow2(n), Pow2(5 - n);
    assert p * k == 32;
    ShiftKeepsThePending(value, k, p, 0x800_0000, 0);
  }

  /** The first `k` of the pending bits, read off the accumulator. */
  lemma {:induction false} ReadsTheTop(value: nat, pending: Bits, k: nat)
    requires 0 < k <= |pending| && value % Pow2(|pending|) == Num(pending)
    ensures value / Pow2(|pending| - k) % Pow2(k) == Num(pending[..k])
    ensures value % Pow2(|pending| - k) == Num(pending[k..])
  {
    var top, rest := pending[..k], pending[k..];
    assert pending == top + rest;
    NumAppend(top, rest);
    PowersMultiply(k, |rest|);
    hide Num, Pow2;
    TakesTheTop(value, Num(top), Num(rest), Pow2(k), Pow2(|rest|));
  }

  lemma {:induction false} DoubledProduct(x: nat, y: nat)
    ensures 2 * (x * y) == 2 * x * y
  {
  }

  lemma {:induction false} PowersMultiply(a: nat, b: nat)
    ensures Pow2(a + b) == Pow2(a) * Pow2(b)
  {
    if a > 0 {
      PowersMultiply(a - 1, b);
      hide Pow2;
      PowerStep(a);
      PowerStep(a + b);
      DoubledProduct(Pow2(a - 1), Pow2(b));
    } else {
      assert Pow2(0) == 1;
    }
  }

  lemma {:induction false} PendingGrows(value: nat, pending: Bits, b: byte)
    requires |pending| < 5 && value % Pow2(|pending|) == Num(pending)
    ensures ShiftIn(value, 8, b) % Pow2(|pending| + 8) == Num(pending + BitsOf(b, 8)) && ShiftIn(value, 8, b) < WORD
  {
    SmallPowers();
    NumAppend(pending, BitsOf(b, 8));
    NumOfBits(b, 8);
    hide Num, BitsOf, Pow2, ShiftIn;
    PushesEight(value, |pending|, b);
  }

  /** One turn of the inner loop: a symbol leaves, the rest stay pending. */
  lemma {:induction false} SymbolLeaves(pending: Bits, rest: Bits)
    requires |pending| >= 5
    ensures Num(pending[..5]) < 32
    ensures Symbols(pending + rest) == [Symbol(Num(pending[..5]))] + Symbols(pending[5..] + rest)
  {
    SmallPowers();
    hide Num, Symbol;
    assert (pending + rest)[..5] == pending[..5] && (pending + rest)[5..] == pending[5..] + rest;
  }

  method Base32Encode(buffer: seq<byte>) returns (output: string)
    ensures output == Encode(buffer)
  {
    hide Symbols, Num, BitsOf, Pow2, ShiftIn, Symbol;
    SmallPowers();
    var bits, value := 0, 0;
    output := "";
    ghost var pending: Bits := [];
    EmptyIsZero();
    assert pending + ByteBits(buffer[0..]) == ByteBits(buffer);
    for i := 0 to |buffer|
      invariant bits == |pending| < 5 && 0 <= value < WORD
      invariant value % Pow2(|pending|) == Num(pending)
      invariant Encode(buffer) == output + Symbols(pending + ByteBits(buffer[i..]))
    {
      ghost var rest := ByteBits(buffer[i + 1..]);
      assert buffer[i..][1..] == buffer[i + 1..];
      assert pending + ByteBits(buffer[i..]) == pending + BitsOf(buffer[i], 8) + rest;
      PendingGrows(value, pending, buffer[i]);
      value := ShiftIn(value, 8, buffer[i]);
      bits := bits + 8;
      pending := pending + BitsOf(buffer[i], 8);
      while bits >= 5
        invariant bits == |pending| && 0 <= value < WORD
        invariant value % Pow2(|pending|) == Num(pending)
        invariant Encode(buffer) == output + Symbols(pending + rest)
      {
        ReadsTheTop(value, pending, 5);
        SymbolLeaves(pending, rest);
        output := output + [Symbol(value / Pow2(bits - 5) % 32)];
        bits := bits - 5;
        pending := pending[5..];
      }
    }
    assert pending + ByteBits(buffer[|buffer|..]) == pending;
    if bits > 0 {
      LastSymbol(value, pending);
      output := output + [Symbol(ShiftIn(value, 5 - bits, 0) % 32)];
    } else {
      NothingPending();
    }
  }

  lemma {:induction false} EmptyIsZero()
    ensures Num([]) == 0 && Pow2(0) == 1
  {
  }

  lemma {:induction false} NothingPending()
    ensures Symbols([]) == ""
  {
  }

  lemma {:induction false} LastSymbol(value: nat, pending: Bits)
    requires 0 < |pending| < 5 && value % Pow2(|pending|) == Num(pending)
    ensures Symbols(pending) == [Symbol(ShiftIn(value, 5 - |pending|, 0) % 32)]
  {
    SmallPowers();
    NumAppend(pending, Zeros(5 - |pending|));
    hide Num, Pow2, ShiftIn, Symbol;
    LastFive(value, |pending|);
  }

  lemma {:induction false} PendingGrowsByFive(value: nat, pending: Bits, n: nat)
    requires |pending| < 8 && n < 32 && value % Pow2(|pending|) == Num(pending)
    ensures ShiftIn(value, 5, n) % Pow2(|pending| + 5) == Num(pending + BitsOf(n, 5)) && ShiftIn(value, 5, n) < WORD
  {
    SmallPowers();
    NumAppend(pending, BitsOf(n, 5));
    NumOfBits(n, 5);
    hide Num, BitsOf, Pow2, ShiftIn;
    PushesFive(value, |pending|, n);
  }

  predicate AreSymbols(s: string) {
    forall c <- s :: IsSymbol(c)
  }

  lemma {:induction false} SymbolBitsSnoc(s: string, c: char)
    requires AreSymbols(s) && IsSymbol(c)
    ensures AreSymbols(s + [c]) && SymbolBits(s + [c]) == SymbolBits(s) + BitsOf(SymbolValue(c).value, 5)
  {
    hide BitsOf;
    if s == "" {
      assert s + [c] == [c] && [c][1..] == "";
      assert SymbolBits([c]) == BitsOf(SymbolValue(c).value, 5) + SymbolBits("");
    } else {
      assert (s + [c])[1..] == s[1..] + [c];
      SymbolBitsSnoc(s[1..], c);
    }
  }

  lemma {:induction false} ByteBitsSnoc(bytes: seq<byte>, b: byte)
    ensures ByteBits(bytes + [b]) == ByteBits(bytes) + BitsOf(b, 8)
  {
    hide BitsOf;
    if bytes == [] {
      assert bytes + [b] == [b] && [b][1..] == [];
      assert ByteBits([b]) == BitsOf(b, 8) + ByteBits([]);
    } else {
      assert (bytes + [b])[1..] == bytes[1..] + [b];
      ByteBitsSnoc(bytes[1..], b);
    }
  }

  /** A byte leaves the accumulator: the bits read so far are the bytes and what is pending. */
  lemma {:induction false} ByteLeaves(bytes: seq<byte>, pending: Bits)
    requires |pending| >= 8
    ensures Num(pending[..8]) < 256
    ensures ByteBits(bytes + [Num(pending[..8])]) + pending[8..] == ByteBits(bytes) + pending
  {
    hide Num, BitsOf, Pow2, ByteBits;
    SmallPowers();
    BitsOfNum(pending[..8]);
    ByteBitsSnoc(bytes, Num(pending[..8]));
    assert pending == pending[..8] + pending[8..];
    assert ByteBits(bytes) + pending[..8] + pending[8..] == ByteBits(bytes) + (pending[..8] + pending[8..]);
  }

  method Base32Decode(encoded: string) returns (result: Result<seq<byte>, Corrupt>)
    ensures result == Decode(encoded)
  {
    hide Bytes, Num, BitsOf, Pow2, ShiftIn, SymbolValue, SymbolBits, ByteBits;
    SmallPowers();
    var cleaned := Cleaned(encoded);
    var bits, value := 0, 0;
    var bytes: seq<byte> := [];
    ghost var pending: Bits := [];
    EmptyIsZero();
    assert SymbolBits(cleaned[..0]) == ByteBits(bytes) + pending;
    for i := 0 to |cleaned|
      invariant bits == |pending| < 8 && 0 <= value < WORD
      invariant value % Pow2(|pending|) == Num(pending)
      invariant AreSymbols(cleaned[..i])
      invariant SymbolBits(cleaned[..i]) == ByteBits(bytes) + pending
    {
      var index := SymbolValue(cleaned[i]);
      if index.None? {
        assert !IsSymbol(cleaned[i]);
        return Err(InvalidCharacter);
      }
      assert cleaned[..i + 1] == cleaned[..i] + [cleaned[i]];
      SymbolBitsSnoc(cleaned[..i], cleaned[i]);
      PendingGrowsByFive(value, pending, index.value);
      value := ShiftIn(value, 5, index.value);
      bits := bits + 5;
      pending := pending + BitsOf(index.value, 5);
      if bits >= 8 {
        ReadsTheTop(value, pending, 8);
        ByteLeaves(bytes, pending);
        bytes := bytes + [value / Pow2(bits - 8) % 256];
        bits := bits - 8;
        pending := pending[8..];
      }
    }
    assert cleaned[..|cleaned|] == cleaned;
    BytesRead(bytes, pending);
    result := Ok(bytes);
  }

  // ---- The alphabet and the number ----

  /** The bytes as one number, the first byte highest. */
  function Number(bytes: seq<byte>): nat {
    if bytes == [] then 0 else 256 * Number(bytes[..|bytes| - 1]) + bytes[|bytes| - 1]
  }

  /** The place of a character in the alphabet of RFC 4648, or 32. */
  function Place(c: char): (k: nat)
    ensures k <= 32
  {
    PlaceIn("ABCDEFGHIJKLMNOPQRSTUVWXYZ234567", c)
  }

  function PlaceIn(alphabet: string, c: char): (k: nat)
    ensures k <= |alphabet| && (k < |alphabet| ==> alphabet[k] == c)
    ensures c in alphabet ==> k < |alphabet|
  {
    if alphabet == "" || alphabet[0] == c then 0 else 1 + PlaceIn(alphabet[1..], c)
  }

  /** The symbols as one number to the base of 32. */
  function SymbolNumber(s: string): nat {
    if s == "" then 0 else 32 * SymbolNumber(s[..|s| - 1]) + Place(s[|s| - 1])
  }

  lemma AlphabetAt(n: nat)
    requires n < 32
    ensures "ABCDEFGHIJKLMNOPQRSTUVWXYZ234567"[n] == Symbol(n)
  {
  }

  lemma {:induction false} PlaceIsValue(c: char)
    ensures IsSymbol(c) <==> Place(c) < 32
    ensures IsSymbol(c) ==> Place(c) == SymbolValue(c).value
  {
    if IsSymbol(c) {
      AlphabetAt(SymbolValue(c).value);
    }
    if Place(c) < 32 {
      AlphabetAt(Place(c));
      SymbolReads(Place(c));
    }
  }

  lemma {:induction false} OneMoreByte(bits: Bits, b: byte)
    ensures Num(bits + BitsOf(b, 8)) == 256 * Num(bits) + b
  {
    SmallPowers();
    NumOfBits(b, 8);
    hide Num, BitsOf, Pow2;
    NumAppend(bits, BitsOf(b, 8));
    assert Num(bits + BitsOf(b, 8)) == Num(bits) * Pow2(8) + b;
  }

  lemma {:induction false} OneMoreDigit(bits: Bits, n: nat)
    requires n < 32
    ensures Num(bits + BitsOf(n, 5)) == 32 * Num(bits) + n
  {
    SmallPowers();
    NumOfBits(n, 5);
    hide Num, BitsOf, Pow2;
    NumAppend(bits, BitsOf(n, 5));
    assert Num(bits + BitsOf(n, 5)) == Num(bits) * Pow2(5) + n;
  }

  lemma {:induction false} TopOfNum(bits: Bits, count: nat)
    requires count <= |bits|
    ensures Num(bits[..count]) == Num(bits) / Pow2(|bits| - count)
  {
    hide Num, Pow2;
    NumAppend(bits[..count], bits[count..]);
    assert bits == bits[..count] + bits[count..];
    DivModIs(Num(bits), Pow2(|bits| - count), Num(bits[..count]), Num(bits[count..]));
  }

  lemma {:induction false} NumIsNumber(bytes: seq<byte>)
    ensures Num(ByteBits(bytes)) == Number(bytes)
  {
    if bytes != [] {
      var before, b := bytes[..|bytes| - 1], bytes[|bytes| - 1];
      NumIsNumber(before);
      hide Num, ByteBits, BitsOf, Pow2;
      ByteBitsSnoc(before, b);
      assert bytes == before + [b];
      OneMoreByte(ByteBits(before), b);
    } else {
      NumOfNothing();
    }
  }

  lemma NoSymbols()
    ensures Num(SymbolBits("")) == SymbolNumber("")
  {
    NumOfNothing();
  }

  lemma {:induction false} LastSymbolIs(s: string)
    requires s != "" && AreSymbols(s)
    ensures AreSymbols(s[..|s| - 1]) && IsSymbol(s[|s| - 1])
    ensures SymbolBits(s) == SymbolBits(s[..|s| - 1]) + BitsOf(SymbolValue(s[|s| - 1]).value, 5)
  {
    var before, c := s[..|s| - 1], s[|s| - 1];
    hide IsSymbol, SymbolBits, BitsOf;
    assert c in s && forall x <- before :: x in s;
    SymbolBitsSnoc(before, c);
    assert s == before + [c];
  }

  lemma {:induction false} NumIsSymbolNumber(s: string)
    requires AreSymbols(s)
    ensures Num(SymbolBits(s)) == SymbolNumber(s)
  {
    if s == "" {
      NoSymbols();
    } else {
      hide Num, SymbolBits, BitsOf, Pow2, Place, SymbolValue, IsSymbol, AreSymbols;
      var before, c := s[..|s| - 1], s[|s| - 1];
      LastSymbolIs(s);
      NumIsSymbolNumber(before);
      PlaceIsValue(c);
      OneMoreDigit(SymbolBits(before), SymbolValue(c).value);
    }
  }

  /** What is written is the number of the bytes, to the base of 32, with zeros behind it to fill the last digit. */
  lemma {:induction false} EncodesTheNumber(bytes: seq<byte>)
    ensures var s := Encode(bytes);
            && |s| == (8 * |bytes| + 4) / 5 && (forall c <- s :: Place(c) < 32)
            && SymbolNumber(s) == Number(bytes) * Pow2(5 * |s| - 8 * |bytes|)
  {
    var bits, s := ByteBits(bytes), Encode(bytes);
    var padding := Zeros((5 - |bits| % 5) % 5);
    SymbolsRead(bits);
    hide Symbols, SymbolBits, Num, Place, Pow2, ByteBits, Zeros;
    forall c <- s ensures Place(c) < 32 {
      PlaceIsValue(c);
    }
    assert |padding| == 5 * |s| - 8 * |bytes|;
    NumIsSymbolNumber(s);
    NumIsNumber(bytes);
    NumAppend(bits, padding);
  }

  lemma TakeAfterByte(bits: Bits, m: nat)
    requires 8 <= m <= |bits|
    ensures bits[..m] == bits[..8] + bits[8..][..m - 8]
  {
  }

  lemma {:induction false} BytesAreTheBits(bits: Bits)
    ensures var whole := 8 * (|bits| / 8); ByteBits(Bytes(bits)) == bits[..whole]
    decreases |bits|
  {
    if |bits| >= 8 {
      var first, rest := bits[..8], Bytes(bits[8..]);
      FirstByte(bits);
      BytesAreTheBits(bits[8..]);
      BitsOfNum(first);
      hide Num, BitsOf, Pow2, Bytes;
      assert ([Num(first)] + rest)[1..] == rest;
      assert 8 * (|bits[8..]| / 8) == 8 * (|bits| / 8) - 8;
      TakeAfterByte(bits, 8 * (|bits| / 8));
    }
  }

  lemma FirstByte(bits: Bits)
    requires |bits| >= 8
    ensures Num(bits[..8]) < 256 && Bytes(bits) == [Num(bits[..8])] + Bytes(bits[8..])
  {
    SmallPowers();
  }

  /** These are the whole bytes at the top of a number of so many bits. */
  predicate AreTop(bytes: seq<byte>, number: nat, size: nat) {
    |bytes| == size / 8 && Number(bytes) == number / Pow2(size - 8 * |bytes|)
  }

  lemma {:induction false} BytesOfNum(bits: Bits)
    ensures AreTop(Bytes(bits), Num(bits), |bits|)
  {
    hide Bytes, Num, Pow2, ByteBits, Number;
    BytesAreTheBits(bits);
    NumIsNumber(Bytes(bits));
    TopOfNum(bits, 8 * |Bytes(bits)|);
  }

  lemma {:induction false} SymbolsAreTheNumber(s: string)
    requires AreSymbols(s)
    ensures AreTop(Bytes(SymbolBits(s)), SymbolNumber(s), 5 * |s|)
  {
    var bits := SymbolBits(s);
    hide SymbolBits, Bytes, Num, Pow2, AreSymbols, IsSymbol, SymbolNumber, AreTop;
    NumIsSymbolNumber(s);
    BytesOfNum(bits);
  }

  /** Any digits are read as the number they write; any other character is refused. */
  lemma {:induction false} DecodesTheNumber(encoded: string)
    ensures var s := Upper(WithoutSpace(DropPadding(encoded)));
            if exists c <- s :: Place(c) == 32 then Decode(encoded) == Err(InvalidCharacter)
            else Decode(encoded).Ok? && AreTop(Decode(encoded).value, SymbolNumber(s), 5 * |s|)
  {
    var s := Upper(WithoutSpace(DropPadding(encoded)));
    forall c <- s ensures IsSymbol(c) <==> Place(c) != 32 {
      PlaceIsValue(c);
    }
    hide SymbolBits, Bytes, Place, Upper, WithoutSpace, DropPadding, IsSymbol, AreTop;
    if forall c <- s :: IsSymbol(c) {
      SymbolsAreTheNumber(s);
    }
  }
}
