/**
 Dynamic symbol lookup: the hash of the System V ABI, chapter 5, and the walk along the chain of a bucket.  A symbol
 stands for its name and value; symbol 0 is the undefined one.
 */
module ElfHash {
  import opened Bits
  import opened Wrappers

  const STN_UNDEF := 0
  const TOP_BITS := 0xF000_0000

  /** A byte of a name as the loader adds it: a signed character, modulo 2 to the 32nd. */
  function Added(c: nat): nat
    requires 0 < c < 256
  {
    if c < 128 then c else c + 0xFFFF_FF00
  }

  predicate IsName(s: seq<nat>) {
    forall i :: 0 <= i < |s| ==> 0 < s[i] < 256
  }

  /** `g`, the top four bits, exclusively or'ed into bits 4 to 7. */
  function XorBits(h: nat, g: nat): nat {
    h - h / 16 % 16 * 16 + Xor(h / 16 % 16, g) * 16
  }

  /** The top four bits are folded into bits 4 to 7 and cleared. */
  function Fold(h: nat): nat {
    XorBits(h % 0x1000_0000, h / 0x1000_0000)
  }

  function HashStep(h: nat, add: nat): nat {
    Fold((h * 16 + add) % 0x1_0000_0000)
  }

  function Hash(s: seq<nat>): nat
    requires IsName(s)
  {
    if s == [] then 0 else HashStep(Hash(s[..|s| - 1]), Added(s[|s| - 1]))
  }

  lemma FoldBound(h: nat)
    requires h < 0x1_0000_0000
    ensures Fold(h) < 0x1000_0000
  {
    assert Power(4) == 16;
    XorBelow(h % 0x1000_0000 / 16 % 16, h / 0x1000_0000, 4);
  }

  /** The hash of any name fits in twenty-eight bits. */
  lemma HashBound(s: seq<nat>)
    requires IsName(s)
    ensures Hash(s) < 0x1000_0000
  {
    if s != [] { FoldBound((Hash(s[..|s| - 1]) * 16 + Added(s[|s| - 1])) % 0x1_0000_0000); }
  }

  /**
   One step of the ABI's hash: shift by four bits and add; the top four bits, if any are set, are moved down by
   twenty-four, exclusively or'ed in, and cleared by their complement.
   */
  function AbiStep(h: nat, c: nat): nat {
    Masked((h * 16 + c) % 0x1_0000_0000)
  }

  function Masked(t: nat): nat {
    var g := And(t, TOP_BITS);
    And(if g != 0 then Xor(t, g / 0x100_0000) else t, Complement(g))
  }

  function Complement(g: nat): nat {
    0xFFFF_FFFF - g % 0x1_0000_0000
  }

  /** The ABI's hash, which takes bytes unsigned and keeps no more than thirty-two bits. */
  function AbiHash(s: seq<nat>): nat
    requires IsName(s)
  {
    if s == [] then 0 else AbiStep(AbiHash(s[..|s| - 1]), s[|s| - 1])
  }

  /** The mask of the top four bits. */
  lemma TopFour(low: nat, k: nat)
    requires low < 0x1000_0000 && k < 16
    ensures And(low + 0x1000_0000 * k, TOP_BITS) == 0x1000_0000 * k
  {
    AndAbove(low, k, 0, 15);
    Widths();
    AndOnes(k, 4);
  }

  lemma ComplementIs(k: nat)
    requires k < 16
    ensures Complement(0x1000_0000 * k) == 0xFFF_FFFF + 0x1000_0000 * (15 - k)
  {
  }

  /** The complement of the top four bits clears them. */
  lemma ClearTop(low: nat, k: nat)
    requires low < 0x1000_0000 && k < 16
    ensures And(low + 0x1000_0000 * k, Complement(0x1000_0000 * k)) == low
  {
    ComplementIs(k);
    AndAbove(low, k, 0xFFF_FFFF, 15 - k);
    assert And(low, 0xFFF_FFFF) == low by {
      Widths();
      AndOnes(low, 28);
    }
    assert And(k, 15 - k) == 0 by {
      Widths();
      AndOnes(k, 4);
    }
  }

  /** Exclusive or with sixteen times a number of four bits changes bits 4 to 7 only. */
  lemma XorInBits(a: nat, mid: nat, rest: nat, k: nat)
    requires a < 16 && mid < 16 && k < 16
    ensures Xor(a + 16 * (mid + 16 * rest), 16 * k) == a + 16 * (Xor(mid, k) + 16 * rest)
  {
    XorNibble(a, mid + 16 * rest, 0, k);
    XorNibble(mid, rest, k, 0);
    XorNothing(a);
    XorNothing(rest);
  }

  /** A number of thirty-two bits by its lowest two nibbles, the twenty bits above them, and the top nibble. */
  function Nibbles(a: nat, mid: nat, high: nat, k: nat): nat {
    a + 16 * mid + 256 * high + 0x1000_0000 * k
  }

  ghost predicate AreNibbles(a: nat, mid: nat, high: nat, k: nat) {
    a < 16 && mid < 16 && high < 0x10_0000 && k < 16
  }

  lemma MaskedNibbles(a: nat, mid: nat, high: nat, k: nat)
    requires AreNibbles(a, mid, high, k)
    ensures Masked(Nibbles(a, mid, high, k)) == Nibbles(a, Xor(mid, k), high, 0)
  {
    var t, x := Nibbles(a, mid, high, k), Xor(mid, k);
    var g := And(t, TOP_BITS);
    assert x < 16 by {
      Widths();
      XorBelow(mid, k, 4);
    }
    assert g == 0x1000_0000 * k by { TopFour(Nibbles(a, mid, high, 0), k); }
    assert g / 0x100_0000 == 16 * k;
    assert Xor(t, 16 * k) == Nibbles(a, x, high, k) by { XorInBits(a, mid, high + 0x10_0000 * k, k); }
    assert Xor(t, 0) == t by { XorNothing(t); }
    assert And(Nibbles(a, x, high, k), Complement(g)) == Nibbles(a, x, high, 0) by {
      ClearTop(Nibbles(a, x, high, 0), k);
    }
  }

  lemma HighLow(low: nat, k: nat)
    requires low < 0x1000_0000
    ensures (low + 0x1000_0000 * k) % 0x1000_0000 == low && (low + 0x1000_0000 * k) / 0x1000_0000 == k
  {
  }

  lemma SecondNibble(a: nat, mid: nat, high: nat)
    requires a < 16 && mid < 16
    ensures (a + 16 * mid + 256 * high) / 16 % 16 == mid
  {
    assert (a + 16 * (mid + 16 * high)) / 16 == mid + 16 * high;
  }

  lemma FoldNibbles(a: nat, mid: nat, high: nat, k: nat)
    requires AreNibbles(a, mid, high, k)
    ensures Fold(Nibbles(a, mid, high, k)) == Nibbles(a, Xor(mid, k), high, 0)
  {
    var low := Nibbles(a, mid, high, 0);
    LowNibbles(a, mid, high, k, low);
    SecondNibble(a, mid, high);
    XorBitsAt(low, mid, k);
    FoldAt(low, k);
  }

  lemma LowNibbles(a: nat, mid: nat, high: nat, k: nat, low: nat)
    requires AreNibbles(a, mid, high, k) && low == Nibbles(a, mid, high, 0)
    ensures low < 0x1000_0000 && low == a + 16 * mid + 256 * high && Nibbles(a, mid, high, k) == low + 0x1000_0000 * k
  {
  }

  lemma XorBitsAt(h: nat, mid: nat, k: nat)
    requires h / 16 % 16 == mid
    ensures XorBits(h, k) == h - mid * 16 + Xor(mid, k) * 16
  {
  }

  lemma FoldAt(low: nat, k: nat)
    requires low < 0x1000_0000
    ensures Fold(low + 0x1000_0000 * k) == XorBits(low, k)
  {
    HighLow(low, k);
  }

  lemma HasNibbles(t: nat) returns (a: nat, mid: nat, high: nat, k: nat)
    requires t < 0x1_0000_0000
    ensures AreNibbles(a, mid, high, k) && t == Nibbles(a, mid, high, k)
  {
    var low := t % 0x1000_0000;
    k := t / 0x1000_0000;
    assert low < 0x1000_0000 && t == low + 0x1000_0000 * k;
    a := low % 16;
    var above := low / 16;
    assert low == a + 16 * above && above < 0x100_0000;
    mid, high := above % 16, above / 16;
    assert above == mid + 16 * high && high < 0x10_0000;
  }

  /** Shifts, masks and exclusive or come to the arithmetic of `Fold`. */
  lemma MaskedFold(t: nat)
    requires t < 0x1_0000_0000
    ensures Masked(t) == Fold(t)
  {
    var a, mid, high, k := HasNibbles(t);
    MaskedNibbles(a, mid, high, k);
    FoldNibbles(a, mid, high, k);
  }

  lemma AbiStepIs(h: nat, c: nat)
    ensures AbiStep(h, c) == HashStep(h, c)
  {
    MaskedFold((h * 16 + c) % 0x1_0000_0000);
  }

  /** What the loader adds for a byte is its value as a signed character. */
  lemma AddedIsSigned(c: nat)
    requires 0 < c < 256
    ensures Added(c) < 0x1_0000_0000 && (c < 128 ==> Added(c) == c)
    ensures c >= 128 ==> Added(c) == 0x1_0000_0000 + (c - 256)
  {
  }

  /** Names in ASCII hash as the ABI says. */
  lemma {:induction false} AsciiHash(s: seq<nat>)
    requires IsName(s) && forall i :: 0 <= i < |s| ==> s[i] < 128
    ensures Hash(s) == AbiHash(s)
  {
    if s != [] {
      AsciiHash(s[..|s| - 1]);
      AbiStepIs(Hash(s[..|s| - 1]), s[|s| - 1]);
    }
  }

  lemma OneByte(c: nat)
    requires 0 < c < 256
    ensures Hash([c]) == HashStep(0, Added(c)) && AbiHash([c]) == HashStep(0, c)
  {
    AbiStepIs(0, c);
    assert [c][..0] == [];
  }

  lemma XorBitsNothing(h: nat, g: nat)
    requires g == 0
    ensures XorBits(h, g) == h
  {
    XorNothing(h / 16 % 16);
  }

  lemma ShortFold(c: nat)
    requires c < 256
    ensures HashStep(0, c) == c
  {
    var low, g := c % 0x1000_0000, c / 0x1000_0000;
    assert (0 * 16 + c) % 0x1_0000_0000 == c && low == c && g == 0;
    XorBitsNothing(low, g);
    assert Fold(c) == XorBits(low, g);
  }

  lemma FoldLow(h: nat)
    ensures Fold(h) >= h % 0x1000_0000 - 240
  {
  }

  lemma SignedFold(c: nat, add: nat)
    requires 128 <= c < 256 && add == c + 0xFFFF_FF00
    ensures HashStep(0, add) > 255
  {
    FoldLow(add);
    assert (0 * 16 + add) % 0x1_0000_0000 == add && add % 0x1000_0000 == c + 0xFFF_FF00;
  }

  /** A name beyond ASCII need not: the loader adds its bytes signed. */
  lemma BeyondAscii(c: nat)
    requires 128 <= c < 256
    ensures Hash([c]) != AbiHash([c])
  {
    OneByte(c);
    ShortFold(c);
    SignedFold(c, Added(c));
  }

  lemma {:induction false} XorNothing(a: nat)
    ensures Xor(a, 0) == a
  {
    if a > 0 { XorNothing(a / 2); }
  }

  method ClearTopBits(h: nat) returns (r: nat)
    ensures r == Masked(h)
  {
    var g := And(h, TOP_BITS);
    r := h;
    if g != 0 { r := Xor(h, g / 0x100_0000); }
    r := And(r, Complement(g));
  }

  method HashChar(h: nat, c: nat) returns (r: nat)
    requires 0 < c < 256
    ensures r == HashStep(h, Added(c))
  {
    AbiStepIs(h, Added(c));
    r := ClearTopBits((h * 16 + Added(c)) % 0x1_0000_0000);
  }

  method GetHashValue(name: seq<nat>) returns (h: nat)
    requires IsName(name)
    ensures h == Hash(name) && h < 0x1000_0000
  {
    h := 0;
    for i := 0 to |name|
      invariant h == Hash(name[..i])
    {
      HashNext(name, i);
      h := HashChar(h, name[i]);
    }
    assert name[..|name|] == name;
    HashBound(name);
  }

  lemma HashNext(s: seq<nat>, i: nat)
    requires IsName(s) && i < |s|
    ensures Hash(s[..i + 1]) == HashStep(Hash(s[..i]), Added(s[i]))
  {
    assert s[..i + 1][..i] == s[..i];
  }

  // ---------------------------------------------------------------- lookup

  datatype Symbol = Symbol(name: seq<nat>, value: nat)
  datatype HashTable = HashTable(bucket: seq<nat>, chain: seq<nat>)

  ghost predicate IsPath(table: HashTable, start: nat, path: seq<nat>) {
    && start == (if path == [] then STN_UNDEF else path[0])
    && forall i :: 0 <= i < |path| ==>
         && path[i] != STN_UNDEF && path[i] < |table.chain|
         && table.chain[path[i]] == if i + 1 < |path| then path[i + 1] else STN_UNDEF
  }

  lemma NextOnPath(table: HashTable, start: nat, path: seq<nat>, k: nat)
    requires IsPath(table, start, path) && k < |path|
    ensures path[k] != STN_UNDEF && path[k] < |table.chain|
    ensures table.chain[path[k]] == if k + 1 < |path| then path[k + 1] else STN_UNDEF
  {
  }

  /** The chain of every bucket ends, and every symbol lies on the chain of its bucket and on no other. */
  ghost predicate WellFormed(table: HashTable, symbols: seq<Symbol>, paths: seq<seq<nat>>) {
    && 0 < |table.bucket| == |paths| && |table.chain| == |symbols|
    && (forall i :: 0 <= i < |symbols| ==> IsName(symbols[i].name))
    && (forall b :: 0 <= b < |paths| ==> IsPath(table, table.bucket[b], paths[b]))
    && (forall b, i: nat :: 0 <= b < |paths| && 0 < i < |symbols| ==>
          (i in paths[b] <==> Belongs(table, symbols[i].name, b)))
  }

  /** The bucket the ABI puts the name in. */
  ghost predicate Belongs(table: HashTable, name: seq<nat>, b: nat)
    requires table.bucket != [] && IsName(name)
  {
    b == AbiHash(name) % |table.bucket|
  }

  /** Symbol `i` defines the name. */
  predicate Defines(symbols: seq<Symbol>, name: seq<nat>, i: nat) {
    i < |symbols| && symbols[i].name == name && symbols[i].value != 0
  }

  /** Symbol `i` is the first of the name. */
  ghost predicate IsFirst(symbols: seq<Symbol>, name: seq<nat>, i: int) {
    0 <= i < |symbols| && symbols[i].name == name && forall j :: 0 <= j < i ==> symbols[j].name != name
  }

  /** The linear lookup of the process's own symbols: the first symbol of the name decides. */
  function Scan(symbols: seq<Symbol>, name: seq<nat>, i: nat): Option<nat>
    requires i <= |symbols|
    decreases |symbols| - i
  {
    if i == |symbols| then None
    else if symbols[i].name == name then (if symbols[i].value == 0 then None else Some(symbols[i].value))
    else Scan(symbols, name, i + 1)
  }

  method GetSymbolOffsetFromProcess(symbols: seq<Symbol>, name: seq<nat>) returns (r: Option<nat>)
    ensures r == Scan(symbols, name, 0)
    ensures forall i :: IsFirst(symbols, name, i) ==>
              r == if symbols[i].value == 0 then None else Some(symbols[i].value)
    ensures (forall i :: 0 <= i < |symbols| ==> symbols[i].name != name) ==> r == None
  {
    for i := 0 to |symbols|
      invariant Scan(symbols, name, i) == Scan(symbols, name, 0)
      invariant forall j :: 0 <= j < i ==> symbols[j].name != name
    {
      if symbols[i].name == name {
        if symbols[i].value == 0 { break; }
        return Some(symbols[i].value);
      }
    }
    return None;
  }

  ghost predicate NamesUnique(symbols: seq<Symbol>) {
    && (forall i, j :: 0 <= i < j < |symbols| ==> symbols[i].name != symbols[j].name)
    && (|symbols| > 0 ==> symbols[0].value == 0)
  }

  lemma {:induction false} ScanFinds(symbols: seq<Symbol>, name: seq<nat>, from: nat, i: nat)
    requires NamesUnique(symbols) && from <= i && Defines(symbols, name, i)
    ensures Scan(symbols, name, from) == Some(symbols[i].value)
    decreases i - from
  {
    if from < i { ScanFinds(symbols, name, from + 1, i); }
  }

  lemma {:induction false} ScanMisses(symbols: seq<Symbol>, name: seq<nat>, from: nat)
    requires from <= |symbols| && forall i: nat :: from <= i ==> !Defines(symbols, name, i)
    ensures Scan(symbols, name, from) == None
    decreases |symbols| - from
  {
    if from < |symbols| {
      assert !Defines(symbols, name, from);
      if symbols[from].name != name { ScanMisses(symbols, name, from + 1); }
    }
  }

  /**
   The walk along the chain of the name's hash finds a definition exactly when there is one and the hash leads to the
   bucket the ABI puts the name in, as it does for every name in ASCII.  Where names are unique it answers as a linear
   scan of the whole table does.
   */
  method GetSymbolOffset(table: HashTable, symbols: seq<Symbol>, name: seq<nat>, ghost paths: seq<seq<nat>>)
    returns (r: Option<nat>)
    requires WellFormed(table, symbols, paths) && IsName(name)
    ensures r.Some? ==> exists i: nat :: 0 < i && Defines(symbols, name, i) && symbols[i].value == r.value
    ensures r.Some? ==>
              && Hash(name) % |table.bucket| < |paths|
              && var path := paths[Hash(name) % |table.bucket|];
                 exists k :: FirstOnPath(symbols, name, path, k) && symbols[path[k]].value == r.value
    ensures r.Some? <==> Hash(name) % |table.bucket| == AbiHash(name) % |table.bucket| && Defined(symbols, name)
    ensures Belongs(table, name, Hash(name) % |table.bucket|) && NamesUnique(symbols) ==> r == Scan(symbols, name, 0)
  {
    var h := GetHashValue(name);
    var b := h % |table.bucket|;
    forall i: nat | Defines(symbols, name, i) && 0 < i ensures i in paths[b] <==> Belongs(table, name, b) {
      DefinedInBucket(table, symbols, name, paths, b, i);
    }
    r := Walk(table, symbols, name, b, paths[b]);
    if Belongs(table, name, b) && NamesUnique(symbols) {
      if r.Some? {
        var i: nat :| 0 < i && Defines(symbols, name, i) && symbols[i].value == r.value;
        ScanFinds(symbols, name, 0, i);
      } else {
        assert !Defines(symbols, name, 0);
        ScanMisses(symbols, name, 0);
      }
    }
  }

  ghost predicate Defined(symbols: seq<Symbol>, name: seq<nat>) {
    exists i: nat :: 0 < i && Defines(symbols, name, i)
  }

  /** The bucket of a name in ASCII is the one the ABI puts it in. */
  lemma AsciiBelongs(table: HashTable, name: seq<nat>)
    requires table.bucket != [] && IsName(name) && forall i :: 0 <= i < |name| ==> name[i] < 128
    ensures Belongs(table, name, Hash(name) % |table.bucket|)
  {
    AsciiHash(name);
  }

  lemma DefinedInBucket(table: HashTable, symbols: seq<Symbol>, name: seq<nat>, paths: seq<seq<nat>>, b: nat, i: nat)
    requires WellFormed(table, symbols, paths) && IsName(name) && b < |paths| && 0 < i && Defines(symbols, name, i)
    ensures i in paths[b] <==> Belongs(table, name, b)
  {
  }

  /** On the chain no definition of the name comes before the one at place `k`. */
  ghost predicate FirstOnPath(symbols: seq<Symbol>, name: seq<nat>, path: seq<nat>, k: int) {
    && 0 <= k < |path| && Defines(symbols, name, path[k])
    && forall j :: 0 <= j < k ==> !Defines(symbols, name, path[j])
  }

  /** The walk along one chain answers a definition exactly when the chain is the name's and there is one. */
  method Walk(table: HashTable, symbols: seq<Symbol>, name: seq<nat>, b: nat, ghost path: seq<nat>)
    returns (r: Option<nat>)
    requires 0 < |table.bucket| && |table.chain| == |symbols| && b < |table.bucket| && IsName(name)
    requires IsPath(table, table.bucket[b], path)
    requires forall i: nat :: Defines(symbols, name, i) && 0 < i ==> (i in path <==> Belongs(table, name, b))
    ensures r.Some? ==> exists i: nat :: 0 < i && Defines(symbols, name, i) && symbols[i].value == r.value
    ensures r.Some? ==> exists k :: FirstOnPath(symbols, name, path, k) && symbols[path[k]].value == r.value
    ensures r.Some? <==> Belongs(table, name, b) && Defined(symbols, name)
  {
    var index := table.bucket[b];
    ghost var k := 0;
    while index != STN_UNDEF
      invariant k <= |path| && index == if k < |path| then path[k] else STN_UNDEF
      invariant forall j :: 0 <= j < k ==> !Defines(symbols, name, path[j])
      decreases |path| - k
    {
      assert k < |path| && path[k] == index && index in path;
      if symbols[index].name == name {
        if symbols[index].value != 0 {
          assert Defines(symbols, name, index) && FirstOnPath(symbols, name, path, k);
          return Some(symbols[index].value);
        }
      }
      NextOnPath(table, table.bucket[b], path, k);
      index, k := table.chain[index], k + 1;
    }
    return None;
  }
}
