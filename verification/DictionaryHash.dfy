/** What dictionary_hash keeps apart. */
module DictionaryHash {
  import opened Dictionaries

  // ----- every step can be undone

  lemma Add3Differs(a: bv32, b: bv32)
    requires a != b
    ensures Add3(a) != Add3(b)
  {
  }

  function UndoAdd10(y: bv32): bv32 {
    y - (y << 10) + (y << 20) - (y << 30)
  }

  function UndoAdd15(y: bv32): bv32 {
    y - (y << 15) + (y << 30)
  }

  function UndoXor6(y: bv32): bv32 {
    y ^ (y >> 6) ^ (y >> 12) ^ (y >> 18) ^ (y >> 24) ^ (y >> 30)
  }

  function UndoXor11(y: bv32): bv32 {
    y ^ (y >> 11) ^ (y >> 22)
  }

  lemma UndoneAdd10(x: bv32)
    ensures UndoAdd10(x + (x << 10)) == x
  {
    calc {
      UndoAdd10(x + (x << 10));
    ==
      (x + (x << 10)) - ((x + (x << 10)) << 10) + ((x + (x << 10)) << 20) - ((x + (x << 10)) << 30);
    ==
      x;
    }
  }

  lemma UndoneAdd15(x: bv32)
    ensures UndoAdd15(x + (x << 15)) == x
  {
  }

  lemma UndoneXor6(x: bv32)
    ensures UndoXor6(x ^ (x >> 6)) == x
  {
  }

  lemma UndoneXor11(x: bv32)
    ensures UndoXor11(x ^ (x >> 11)) == x
  {
  }

  lemma Undone(x: bv32)
    ensures UndoAdd10(Add10(x)) == x && UndoAdd15(Add15(x)) == x && UndoXor6(Xor6(x)) == x && UndoXor11(Xor11(x)) == x
  {
    hide UndoAdd10, UndoAdd15, UndoXor6, UndoXor11;
    UndoneAdd10(x);
    UndoneAdd15(x);
    UndoneXor6(x);
    UndoneXor11(x);
  }

  function Minus(x: bv32, y: bv32): bv32 {
    x - y
  }

  lemma SumUndone(x: bv32, y: bv32)
    ensures Minus(x + y, x) == y && Minus(x + y, y) == x
  {
  }

  lemma PlusUndone(x: bv32, y: bv32)
    ensures Minus(Plus(x, y), x) == y && Minus(Plus(x, y), y) == x
  {
    hide Minus;
    SumUndone(x, y);
  }

  lemma PlusDiffers(g: bv32, c: bv32, h: bv32, d: bv32)
    requires (g == h && c != d) || (g != h && c == d)
    ensures Plus(g, c) != Plus(h, d)
  {
    hide Minus, Plus;
    PlusUndone(g, c);
    PlusUndone(h, d);
  }

  lemma ScrambleDiffers(x: bv32, y: bv32)
    requires x != y
    ensures Xor6(Add10(x)) != Xor6(Add10(y))
  {
    hide UndoAdd10, UndoXor6, Add10, Xor6;
    Undone(x);
    Undone(y);
    Undone(Add10(x));
    Undone(Add10(y));
  }

  lemma MixDiffers(g: bv32, c: char, h: bv32, d: char)
    requires (g == h && CharCode(c) != CharCode(d)) || (g != h && c == d)
    ensures Mix(g, c) != Mix(h, d)
  {
    hide CharCode, Plus, Add10, Xor6;
    PlusDiffers(g, CharCode(c), h, CharCode(d));
    ScrambleDiffers(Plus(g, CharCode(c)), Plus(h, CharCode(d)));
  }

  lemma FinishDiffers(g: bv32, h: bv32)
    requires g != h
    ensures Finish(g) != Finish(h)
  {
    hide UndoAdd15, UndoXor11, Add3, Add15, Xor11;
    Add3Differs(g, h);
    Undone(Add3(g));
    Undone(Add3(h));
    Undone(Xor11(Add3(g)));
    Undone(Xor11(Add3(h)));
  }

  // ----- characters

  function Low(b: bv32): bv8 {
    (b & 0xff) as bv8
  }

  lemma LowByte(i: int)
    requires 0 <= i < 256
    ensures i % 256 == i && (i as bv8) as int == i
  {
    assert i / 256 == 0;
  }

  lemma LowBytes(i: int)
    requires 0 <= i < 256
    ensures Low(i as bv32) == i as bv8
  {
    assert (i as bv32) as bv8 == i as bv8;
  }

  lemma HighBits(x: bv32)
    ensures Low(0xffffff00 | x) == Low(x)
  {
  }

  lemma LowCode(c: char)
    requires c as int < 256
    ensures Low(CharCode(c)) == c as int as bv8
  {
    hide Low;
    var i := c as int;
    LowBytes(i);
    HighBits(i as bv32);
  }

  lemma CodeDiffers(c: char, d: char)
    requires c as int < 256 && d as int < 256 && c != d
    ensures CharCode(c) != CharCode(d)
  {
    hide Low, CharCode;
    LowByte(c as int);
    LowByte(d as int);
    LowCode(c);
    LowCode(d);
  }

  // ----- keys

  lemma {:induction false} SameUpTo(a: string, b: string, n: nat)
    requires n <= |a| && n <= |b| && a[..n] == b[..n]
    ensures HashUpTo(a, n) == HashUpTo(b, n)
  {
    hide Mix;
    if n > 0 {
      assert a[..n - 1] == a[..n][..n - 1] == b[..n - 1] && a[n - 1] == a[..n][n - 1] == b[n - 1];
      SameUpTo(a, b, n - 1);
    }
  }

  lemma {:induction false} DiffersUpTo(a: string, b: string, k: nat, n: nat)
    requires k < n <= |a| == |b| && a[..k] == b[..k] && a[k] != b[k] && a[k] as int < 256 && b[k] as int < 256
    requires forall i :: k < i < n ==> a[i] == b[i]
    ensures HashUpTo(a, n) != HashUpTo(b, n)
  {
    hide Mix, CharCode;
    if n == k + 1 {
      SameUpTo(a, b, k);
      CodeDiffers(a[k], b[k]);
    } else {
      DiffersUpTo(a, b, k, n - 1);
    }
    MixDiffers(HashUpTo(a, n - 1), a[n - 1], HashUpTo(b, n - 1), b[n - 1]);
  }

  /** Two keys that differ in one character never have the same hash. */
  lemma OneCharacterDiffers(a: string, b: string, k: nat)
    requires k < |a| == |b| && a[k] != b[k] && a[k] as int < 256 && b[k] as int < 256
    requires forall i :: 0 <= i < |a| && i != k ==> a[i] == b[i]
    ensures Hash(a) != Hash(b)
  {
    hide Finish, HashUpTo;
    assert a[..k] == b[..k];
    DiffersUpTo(a, b, k, |a|);
    FinishDiffers(HashUpTo(a, |a|), HashUpTo(b, |b|));
  }

  lemma TwoCharacters(c: char, d: char)
    ensures Hash([c]) == Finish(Mix(0, c))
    ensures Hash([c, d]) == Finish(Mix(Mix(0, c), d))
  {
    hide Mix, Finish;
    assert HashUpTo([c], 0) == 0 && HashUpTo([c, d], 0) == 0;
    assert HashUpTo([c], 1) == Mix(0, c) && HashUpTo([c, d], 1) == Mix(0, c);
    assert HashUpTo([c, d], 2) == Mix(Mix(0, c), d);
  }

  lemma KnownCodes()
    ensures CharCode('a') == 97 && CharCode('b') == 98 && CharCode(200 as char) == 0xffffffc8
  {
    assert 'a' as int % 256 == 97 && 'b' as int % 256 == 98 && (200 as char) as int % 256 == 200;
    assert (200 as int) as bv32 == 200;
  }

  /** Known values; a character from 128 on is negative. */
  lemma KnownHashes()
    ensures Hash("") == 0 && Hash("a") == 0xca2e9442 && Hash("ab") == 0x45e61e58
    ensures Hash([200 as char]) == 0x9c4b006f
  {
    assert HashUpTo("", 0) == 0;
    KnownCodes();
    hide CharCode;
    TwoCharacters('a', 'b');
    TwoCharacters(200 as char, 'b');
  }
}
