/** A dictionary without sections, printed and loaded again. */
module IniPlain {
  import opened Dictionaries
  import opened IniLine
  import opened IniFile
  import opened IniEntry
  import opened IniMeaning

  /** The text of a value: a null value is printed as "(null)". */
  function Shown(val: CString): string {
    if val.Str? then val.s else "(null)"
  }

  /** Every slot's line is loaded as it was printed. */
  ghost predicate PlainOk(keys: seq<CString>, vals: seq<CString>)
    requires |keys| == |vals|
  {
    forall i :: 0 <= i < |keys| && keys[i].Str? ==> LineOk(keys[i].s, Shown(vals[i]))
  }

  predicate LineOk(k: string, v: string) {
    && KeyOk(k) && ValueOk(v) && !LikeSection(k, v) && !Continues(v)
    && '\n' !in k && '\n' !in v && |k| + |v| + 4 < ASCIILINESZ
  }

  /** What the first n slots are loaded as: every key with a colon in front. */
  ghost function PlainMap(keys: seq<CString>, vals: seq<CString>, n: nat): map<string, CString>
    requires n <= |keys| == |vals|
  {
    if n == 0 then map[]
    else
      var m := PlainMap(keys, vals, n - 1);
      if keys[n - 1].Str? then m[":" + keys[n - 1].s := Str(Shown(vals[n - 1]))] else m
  }

  lemma LineParsed(k: string, v: string)
    requires LineOk(k, v)
    ensures ParseLine(k + " = " + v, []) == ValueLine(k, v) && FileLine(k + " = " + v)
  {
    hide ParseLine, KeyOk, ValueOk, FileLine, Strip, Lwc, SkipSpace, IsEntry, ValueOf, LikeSection, Trimmed;
    var x, n := k + " = " + v, |k| + 1;
    ValueIsTrimmed(v);
    WrittenFits(k, v);
    WrittenStripped(k, v);
    WrittenKey(k);
    SkipOneSpace(v);
    ValueKept(v);
    EntryLineMeans(x, [], n);
  }

  lemma LineLoaded(m: map<string, CString>, k: string, v: string, rest: string)
    requires LineOk(k, v)
    ensures LoadFrom(Loading([], [], 0, m), k + " = " + v + "\n" + rest) ==
            LoadFrom(Loading([], [], 0, m[":" + k := Str(v)]), rest)
  {
    hide LoadFrom, ParseLine, FileLine, LineOk;
    LineParsed(k, v);
    TakesLine(Loading([], [], 0, m), k + " = " + v, rest);
    assert [] + ":" + k == ":" + k;
  }

  lemma {:induction false} PlainLoaded(keys: seq<CString>, vals: seq<CString>, n: nat)
    requires n <= |keys| == |vals| && PlainOk(keys, vals)
    ensures LoadFrom(Loading([], [], 0, PlainMap(keys, vals, n)), PlainLines(keys, vals, n)) ==
            Dict(PlainMap(keys, vals, |keys|))
    decreases |keys| - n
  {
    hide LoadFrom, LineOk;
    var m := PlainMap(keys, vals, n);
    if n == |keys| {
      EndOfLines(Loading([], [], 0, m));
    } else {
      PlainLoaded(keys, vals, n + 1);
      var rest := PlainLines(keys, vals, n + 1);
      if keys[n].Str? {
        var k, v := keys[n].s, Shown(vals[n]);
        LineLoaded(m, k, v, rest);
        assert PlainLine(k, vals[n]) + rest == k + " = " + v + "\n" + rest;
      } else {
        assert "" + rest == rest;
      }
    }
  }

  /** The keys of p are those of m behind a colon. */
  ghost predicate Colons(p: map<string, CString>, m: map<string, CString>) {
    && (forall k :: k in m ==> ":" + k in p && p[":" + k] == Str(Shown(m[k])))
    && (forall x :: x in p ==> x != [] && x[0] == ':' && x[1..] in m)
  }

  lemma ColonsGain(p: map<string, CString>, m: map<string, CString>, key: string, val: CString)
    requires Colons(p, m)
    ensures Colons(p[":" + key := Str(Shown(val))], m[key := val])
  {
    assert (":" + key)[1..] == key;
    forall k | k in m && k != key
      ensures ":" + k != ":" + key
    {
      assert (":" + k)[1..] == k;
    }
  }

  lemma {:induction false} PlainMapMeans(keys: seq<CString>, vals: seq<CString>, n: nat)
    requires n <= |keys| == |vals|
    ensures Colons(PlainMap(keys, vals, n), Entries(keys[..n], vals[..n]))
  {
    if n > 0 {
      hide Colons;
      PlainMapMeans(keys, vals, n - 1);
      var ks, vs := keys[..n], vals[..n];
      assert ks[..n - 1] == keys[..n - 1] && vs[..n - 1] == vals[..n - 1];
      assert ks[n - 1] == keys[n - 1] && vs[n - 1] == vals[n - 1] && |ks| - 1 == n - 1;
      if keys[n - 1].Str? {
        ColonsGain(PlainMap(keys, vals, n - 1), Entries(ks[..n - 1], vs[..n - 1]), keys[n - 1].s, vals[n - 1]);
      }
    }
  }

  /** No dictionary but the empty one has exactly its keys behind a colon. */
  lemma {:induction false} ColonsEnd(m: map<string, CString>, k: string)
    requires k in m && forall x :: x in m ==> x != [] && x[1..] in m
    ensures false
    decreases |k|
  {
    ColonsEnd(m, k[1..]);
  }

  lemma ColonsDiffer(p: map<string, CString>, m: map<string, CString>)
    requires forall x :: x in p ==> x != [] && x[1..] in m
    ensures p == m <==> m == map[]
  {
    if p == m && m != map[] {
      var k :| k in m;
      ColonsEnd(m, k);
    }
  }

  /** A dictionary without sections is loaded with a colon before every key and
      "(null)" for every null value, so it never comes back unless it is empty. */
  lemma PlainRoundTrip(keys: seq<CString>, vals: seq<CString>)
    requires |keys| == |vals| && PlainOk(keys, vals)
    requires forall i :: 0 <= i < |keys| && keys[i].Str? ==> ':' in keys[i].s
    ensures var r, m := LoadFile(DumpText(keys, vals)), Entries(keys, vals);
      && r.Dict?
      && (forall k :: k in m ==> ":" + k in r.m && r.m[":" + k] == Str(if m[k].Str? then m[k].s else "(null)"))
      && (forall x :: x in r.m ==> x != [] && x[0] == ':' && x[1..] in m)
      && (r.m == m <==> m == map[])
  {
    hide LoadFrom, PlainLines, PlainMap, Entries, PlainOk, SectionLines;
    NoSectionCount(keys, |keys|);
    PlainLoaded(keys, vals, 0);
    assert PlainMap(keys, vals, 0) == map[] by {
      NoneLoaded(keys, vals);
    }
    PlainMapMeans(keys, vals, |keys|);
    assert keys[..|keys|] == keys && vals[..|vals|] == vals;
    var p, m := PlainMap(keys, vals, |keys|), Entries(keys, vals);
    assert forall x :: x in p ==> x != [] && x[1..] in m;
    ColonsDiffer(p, m);
  }

  lemma NoneLoaded(keys: seq<CString>, vals: seq<CString>)
    requires |keys| == |vals|
    ensures PlainMap(keys, vals, 0) == map[]
  {
  }

  lemma {:induction false} NoSectionCount(keys: seq<CString>, n: nat)
    requires n <= |keys| && forall i :: 0 <= i < |keys| && keys[i].Str? ==> ':' in keys[i].s
    ensures SecCount(keys, n) == 0
  {
    if n > 0 {
      NoSectionCount(keys, n - 1);
    }
  }
}
