/** A dictionary of strings in parallel slot arrays, with a cached hash per key. */
module Dictionaries {

  const DICTMINSZ := 128

  /** A C string, or a null pointer. */
  datatype CString = NullStr | Str(s: string)

  // ----- dictionary_hash

  /** (unsigned)c for a signed char. */
  function CharCode(c: char): bv32 {
    var code := c as int % 256;
    if code < 128 then code as bv32 else 0xffffff00 | (code as bv32)
  }

  function Add3(x: bv32): bv32 { x + (x << 3) }

  function Add10(x: bv32): bv32 { x + (x << 10) }

  function Add15(x: bv32): bv32 { x + (x << 15) }

  function Xor6(x: bv32): bv32 { x ^ (x >> 6) }

  function Xor11(x: bv32): bv32 { x ^ (x >> 11) }

  function Plus(x: bv32, y: bv32): bv32 { x + y }

  function Mix(hash: bv32, c: char): bv32 {
    Xor6(Add10(Plus(hash, CharCode(c))))
  }

  function HashUpTo(key: string, n: nat): bv32
    requires n <= |key|
  {
    if n == 0 then 0 else Mix(HashUpTo(key, n - 1), key[n - 1])
  }

  function Finish(hash: bv32): bv32 {
    Add15(Xor11(Add3(hash)))
  }

  function Hash(key: string): bv32 {
    Finish(HashUpTo(key, |key|))
  }

  /** dictionary_hash */
  method ComputeHash(key: string) returns (hash: bv32)
    ensures hash == Hash(key)
  {
    hash := 0;
    var i := 0;
    while i < |key|
      invariant i <= |key| && hash == HashUpTo(key, i)
    {
      hash := Mix(hash, key[i]);
      i := i + 1;
    }
    hash := Finish(hash);
  }

  // ----- what the slots stand for

  /** The entries in the slots. */
  ghost function Entries(keys: seq<CString>, vals: seq<CString>): map<string, CString>
    requires |keys| == |vals|
  {
    if keys == [] then map[]
    else
      var n := |keys| - 1;
      var m := Entries(keys[..n], vals[..n]);
      if keys[n].Str? then m[keys[n].s := vals[n]] else m
  }

  /** The number of slots in use. */
  ghost function Used(keys: seq<CString>): nat {
    if keys == [] then 0 else Used(keys[..|keys| - 1]) + if keys[|keys| - 1].Str? then 1 else 0
  }

  ghost predicate Distinct(keys: seq<CString>) {
    forall i, j :: 0 <= i < j < |keys| && keys[i].Str? ==> keys[i] != keys[j]
  }

  ghost predicate Absent(keys: seq<CString>, key: string) {
    forall i :: 0 <= i < |keys| ==> keys[i] != Str(key)
  }

  lemma {:induction false} EntryAt(keys: seq<CString>, vals: seq<CString>, i: nat)
    requires |keys| == |vals| && Distinct(keys) && i < |keys| && keys[i].Str?
    ensures keys[i].s in Entries(keys, vals) && Entries(keys, vals)[keys[i].s] == vals[i]
    decreases |keys|
  {
    var n := |keys| - 1;
    if i < n {
      EntryAt(keys[..n], vals[..n], i);
    }
  }

  lemma {:induction false} NoEntry(keys: seq<CString>, vals: seq<CString>, key: string)
    requires |keys| == |vals| && Absent(keys, key)
    ensures key !in Entries(keys, vals)
    decreases |keys|
  {
    if keys != [] {
      NoEntry(keys[..|keys| - 1], vals[..|keys| - 1], key);
    }
  }

  /** Writing an entry into the slot that has its key, or into a free one. */
  lemma {:induction false} EntrySet(keys: seq<CString>, vals: seq<CString>, i: nat, key: string, val: CString)
    requires |keys| == |vals| && i < |keys| && (keys[i] == NullStr || keys[i] == Str(key))
    requires forall j :: 0 <= j < |keys| && j != i ==> keys[j] != Str(key)
    ensures Entries(keys[i := Str(key)], vals[i := val]) == Entries(keys, vals)[key := val]
    ensures Used(keys[i := Str(key)]) == Used(keys) + if keys[i] == NullStr then 1 else 0
    decreases |keys|
  {
    var n := |keys| - 1;
    var keys', vals' := keys[i := Str(key)], vals[i := val];
    if i == n {
      assert keys'[..n] == keys[..n] && vals'[..n] == vals[..n];
    } else {
      EntrySet(keys[..n], vals[..n], i, key, val);
      assert keys'[..n] == keys[..n][i := Str(key)] && vals'[..n] == vals[..n][i := val];
    }
  }

  /** Clearing a slot. */
  lemma {:induction false} EntryUnset(keys: seq<CString>, vals: seq<CString>, i: nat, val: CString)
    requires |keys| == |vals| && Distinct(keys) && i < |keys| && keys[i].Str?
    ensures Entries(keys[i := NullStr], vals[i := val]) == Entries(keys, vals) - {keys[i].s}
    ensures Used(keys[i := NullStr]) == Used(keys) - 1
    decreases |keys|
  {
    var n := |keys| - 1;
    var keys', vals' := keys[i := NullStr], vals[i := val];
    if i == n {
      assert keys'[..n] == keys[..n] && vals'[..n] == vals[..n];
      NoEntry(keys[..n], vals[..n], keys[i].s);
    } else {
      EntryUnset(keys[..n], vals[..n], i, val);
      assert keys'[..n] == keys[..n][i := NullStr] && vals'[..n] == vals[..n][i := val];
    }
  }

  /** Free slots behind the others. */
  lemma {:induction false} EntriesGrow(keys: seq<CString>, vals: seq<CString>, keys': seq<CString>, vals': seq<CString>)
    requires |keys| == |vals| <= |keys'| == |vals'| && keys'[..|keys|] == keys && vals'[..|keys|] == vals
    requires forall i :: |keys| <= i < |keys'| ==> keys'[i] == NullStr
    ensures Entries(keys', vals') == Entries(keys, vals) && Used(keys') == Used(keys)
    decreases |keys'|
  {
    if |keys'| > |keys| {
      var n := |keys'| - 1;
      assert keys'[..n][..|keys|] == keys && vals'[..n][..|keys|] == vals;
      EntriesGrow(keys, vals, keys'[..n], vals'[..n]);
    } else {
      assert keys' == keys && vals' == vals;
    }
  }

  lemma KeysGrow(keys: seq<CString>, keys': seq<CString>, hashes: seq<bv32>, hashes': seq<bv32>)
    requires |keys| == |hashes| <= |keys'| == |hashes'| && keys'[..|keys|] == keys && hashes'[..|keys|] == hashes
    requires forall i :: |keys| <= i < |keys'| ==> keys'[i] == NullStr
    requires Distinct(keys) && forall i :: 0 <= i < |keys| && keys[i].Str? ==> hashes[i] == Hash(keys[i].s)
    ensures Distinct(keys') && forall i :: 0 <= i < |keys'| && keys'[i].Str? ==> hashes'[i] == Hash(keys'[i].s)
    ensures forall k :: Absent(keys, k) ==> Absent(keys', k)
  {
    assert forall i :: 0 <= i < |keys| ==> keys'[i] == keys'[..|keys|][i] && hashes'[i] == hashes'[..|keys|][i];
  }

  /** Slots that are all in use are counted. */
  lemma {:induction false} AllUsed(keys: seq<CString>)
    ensures Used(keys) <= |keys|
    ensures (forall i :: 0 <= i < |keys| ==> keys[i].Str?) ==> Used(keys) == |keys|
  {
    if keys != [] {
      AllUsed(keys[..|keys| - 1]);
    }
  }

  lemma {:induction false} NoneUsed(keys: seq<CString>, vals: seq<CString>)
    requires |keys| == |vals| && forall i :: 0 <= i < |keys| ==> keys[i] == NullStr
    ensures Used(keys) == 0 && Entries(keys, vals) == map[]
  {
    if keys != [] {
      NoneUsed(keys[..|keys| - 1], vals[..|keys| - 1]);
    }
  }

  // ----- the dictionary

  class Dictionary {
    var n: nat
    var size: nat
    var val: array<CString>
    var key: array<CString>
    var hash: array<bv32>

    ghost function Repr(): set<object>
      reads this
    {
      {this, val, key, hash}
    }

    /** The slots are consistent. */
    ghost predicate Valid()
      reads this, val, key, hash
    {
      && key.Length == val.Length == hash.Length == size && DICTMINSZ <= size
      && key != val && key as object != hash && val as object != hash
      && Distinct(key[..]) && n == Used(key[..])
      && forall i :: 0 <= i < size && key[i].Str? ==> hash[i] == Hash(key[i].s)
    }

    /** The map that the dictionary stands for. A key can have no value. */
    ghost function Contents(): map<string, CString>
      requires Valid()
      reads this, val, key, hash
    {
      Entries(key[..], val[..])
    }

    /** dictionary_new */
    constructor (size0: int)
      ensures Valid() && Contents() == map[] && n == 0 && fresh(Repr())
    {
      size := if size0 < DICTMINSZ then DICTMINSZ else size0;
      n := 0;
      val := new CString[if size0 < DICTMINSZ then DICTMINSZ else size0](_ => NullStr);
      key := new CString[if size0 < DICTMINSZ then DICTMINSZ else size0](_ => NullStr);
      hash := new bv32[if size0 < DICTMINSZ then DICTMINSZ else size0](_ => 0);
      new;
      NoneUsed(key[..], val[..]);
    }

    /** The slot of a key, size if there is none: the loop of dictionary_get,
        dictionary_set and dictionary_unset. */
    method FindSlot(k: string, h: bv32) returns (i: nat)
      requires Valid() && h == Hash(k)
      ensures i <= size
      ensures i < size ==> key[i] == Str(k) && k in Contents() && Contents()[k] == val[i]
      ensures i == size ==> Absent(key[..], k) && k !in Contents()
    {
      i := 0;
      while i < size
        invariant i <= size && forall j :: 0 <= j < i ==> key[j] != Str(k)
      {
        if key[i].Str? && h == hash[i] && k == key[i].s {
          EntryAt(key[..], val[..], i);
          return;
        }
        i := i + 1;
      }
      NoEntry(key[..], val[..], k);
    }

    /** dictionary_get */
    method Get(k: string, def: CString) returns (r: CString)
      requires Valid()
      ensures r == if k in Contents() then Contents()[k] else def
    {
      var h := ComputeHash(k);
      var i := FindSlot(k, h);
      r := if i < size then val[i] else def;
    }

    /** The three arrays at twice the size: mem_double. */
    method Grow()
      requires Valid()
      modifies this`size, this`val, this`key, this`hash
      ensures Valid() && size == 2 * old(size) && Contents() == old(Contents()) && n == old(n)
      ensures fresh(key) && fresh(val) && fresh(hash)
      ensures forall k :: Absent(old(key[..]), k) ==> Absent(key[..], k)
    {
      var val' := MemDouble(val, NullStr);
      var key' := MemDouble(key, NullStr);
      var hash' := MemDouble(hash, 0);
      EntriesGrow(key[..], val[..], key'[..], val'[..]);
      KeysGrow(key[..], key'[..], hash[..], hash'[..]);
      val, key, hash, size := val', key', hash', 2 * size;
    }

    /** The first free slot. */
    method FreeSlot() returns (i: nat)
      requires Valid() && n < size
      ensures i < size && key[i] == NullStr
    {
      i := 0;
      while i < size && key[i] != NullStr
        invariant i <= size && forall j :: 0 <= j < i ==> key[j].Str?
      {
        i := i + 1;
      }
      AllUsed(key[..]);
    }

    /** dictionary_set */
    method Set(k: CString, v: CString) returns (r: int)
      requires Valid()
      modifies Repr()
      ensures Valid() && fresh(Repr() - old(Repr()))
      ensures if k == NullStr then r == -1 && Contents() == old(Contents())
              else r == 0 && Contents() == old(Contents())[k.s := v]
    {
      if k == NullStr {
        return -1;
      }
      var h := ComputeHash(k.s);
      var found := false;
      if n > 0 {
        found := Replace(k.s, v, h);
      } else {
        NothingThere(k.s);
      }
      if !found {
        AllUsed(key[..]);
        if n == size {
          Grow();
        }
        AddEntry(k.s, v, h);
      }
      r := 0;
    }

    /** A new value for a key that is there. */
    method Replace(k: string, v: CString, h: bv32) returns (found: bool)
      requires Valid() && h == Hash(k)
      modifies val
      ensures Valid() && key[..] == old(key[..])
      ensures if found then Contents() == old(Contents())[k := v]
              else Contents() == old(Contents()) && Absent(key[..], k)
    {
      var i := FindSlot(k, h);
      found := i < size;
      if found {
        EntrySet(key[..], val[..], i, k, v);
        val[i] := v;
        assert key[..] == old(key[..]) && key[..] == old(key[..])[i := Str(k)];
        assert val[..] == old(val[..])[i := v];
      }
    }

    lemma NothingThere(k: string)
      requires Valid() && n == 0
      ensures Absent(key[..], k)
    {
      NoKeys(key[..]);
    }

    /** The end of dictionary_set: a new entry in a free slot. */
    method AddEntry(k: string, v: CString, h: bv32)
      requires Valid() && n < size && Absent(key[..], k) && h == Hash(k)
      modifies this`n, key, val, hash
      ensures Valid() && Contents() == old(Contents())[k := v] && n == old(n) + 1
    {
      var i := FreeSlot();
      EntrySet(key[..], val[..], i, k, v);
      key[i], val[i] := Str(k), v;
      hash[i] := h;
      n := n + 1;
      assert key[..] == old(key[..])[i := Str(k)] && val[..] == old(val[..])[i := v];
    }

    /** dictionary_unset */
    method Unset(k: CString)
      requires Valid()
      modifies this`n, key, val, hash
      ensures Valid()
      ensures Contents() == if k == NullStr then old(Contents()) else old(Contents()) - {k.s}
    {
      if k == NullStr {
        return;
      }
      var h := ComputeHash(k.s);
      var i := FindSlot(k.s, h);
      if i >= size {
        assert old(Contents()) - {k.s} == old(Contents());
        return;
      }
      EntryUnset(key[..], val[..], i, NullStr);
      key[i], val[i] := NullStr, NullStr;
      hash[i] := 0;
      assert key[..] == old(key[..])[i := NullStr] && val[..] == old(val[..])[i := NullStr];
      AllUsed(old(key[..])[i := NullStr]);
      n := n - 1;
    }
  }

  lemma {:induction false} NoKeys(keys: seq<CString>)
    requires Used(keys) == 0
    ensures forall i :: 0 <= i < |keys| ==> keys[i] == NullStr
  {
    if keys != [] {
      NoKeys(keys[..|keys| - 1]);
    }
  }

  /** mem_double: twice the size, the second half zeroed. */
  method MemDouble<T>(a: array<T>, zero: T) returns (b: array<T>)
    ensures fresh(b) && b.Length == 2 * a.Length && b[..a.Length] == a[..]
    ensures forall i :: a.Length <= i < b.Length ==> b[i] == zero
  {
    b := new T[2 * a.Length](i requires 0 <= i < 2 * a.Length reads a => if i < a.Length then a[i] else zero);
  }

  // ----- runs

  datatype DictOp = OpSet(k: CString, v: CString) | OpUnset(k: CString) | OpGet(key: string, def: CString)

  /** What an operation makes of the map. */
  ghost function After(m: map<string, CString>, op: DictOp): map<string, CString> {
    match op
    case OpSet(k, v) => if k.Str? then m[k.s := v] else m
    case OpUnset(k) => if k.Str? then m - {k.s} else m
    case OpGet(_, _) => m
  }

  ghost function AfterAll(m: map<string, CString>, ops: seq<DictOp>, n: nat): map<string, CString>
    requires n <= |ops|
  {
    if n == 0 then m else After(AfterAll(m, ops, n - 1), ops[n - 1])
  }

  /** What dictionary_get returns. */
  ghost function Found(m: map<string, CString>, op: DictOp): CString {
    if op.OpGet? && op.key in m then m[op.key] else if op.OpGet? then op.def else NullStr
  }

  method DoOp(d: Dictionary, op: DictOp) returns (r: CString)
    requires d.Valid()
    modifies d.Repr()
    ensures d.Valid() && fresh(d.Repr() - old(d.Repr()))
    ensures d.Contents() == After(old(d.Contents()), op) && r == Found(old(d.Contents()), op)
  {
    hide Entries, Hash, Used, Distinct;
    r := NullStr;
    match op {
      case OpSet(k, v) =>
        var _ := d.Set(k, v);
      case OpUnset(k) =>
        d.Unset(k);
      case OpGet(key, def) =>
        r := d.Get(key, def);
    }
  }

  /** Any run of operations, doublings included, is one on a map. */
  method Perform(d: Dictionary, ops: seq<DictOp>) returns (results: seq<CString>)
    requires d.Valid()
    modifies d.Repr()
    ensures d.Valid() && d.Contents() == AfterAll(old(d.Contents()), ops, |ops|)
    ensures |results| == |ops|
    ensures forall i :: 0 <= i < |ops| ==> results[i] == Found(AfterAll(old(d.Contents()), ops, i), ops[i])
  {
    hide Entries, Hash, Used, Distinct, After, Found;
    results := [];
    ghost var m := d.Contents();
    var i := 0;
    while i < |ops|
      invariant i == |results| <= |ops| && d.Valid() && fresh(d.Repr() - old(d.Repr()))
      invariant d.Contents() == AfterAll(m, ops, i)
      invariant forall j :: 0 <= j < i ==> results[j] == Found(AfterAll(m, ops, j), ops[j])
    {
      var r := DoOp(d, ops[i]);
      results, i := results + [r], i + 1;
    }
  }
}
