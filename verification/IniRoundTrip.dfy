/** Loading what was printed gives the dictionary back. */
module IniRoundTrip {
  import opened Dictionaries
  import opened IniLine
  import opened IniFile
  import opened IniEntry

  // ----- well-formed dictionaries

  /** Entry i is one of section h. */
  ghost predicate Belongs(keys: seq<CString>, i: int, h: int) {
    0 <= i < |keys| && 0 <= h < |keys| && IsSection(keys[h]) && Inside(keys[i], keys[h].s)
  }

  /** Sections have no value; each entry belongs to a section that is there. */
  ghost predicate WellFormed(keys: seq<CString>, vals: seq<CString>) {
    && |keys| == |vals| && Distinct(keys) && 1 <= SecCount(keys, |keys|)
    && (forall i :: 0 <= i < |keys| && keys[i].Str? ==> |keys[i].s| <= ASCIILINESZ)
    && (forall i :: 0 <= i < |keys| && IsSection(keys[i]) ==> vals[i] == NullStr && SectionOk(keys[i].s))
    && (forall i :: 0 <= i < |keys| && keys[i].Str? && !IsSection(keys[i]) ==> exists h :: Belongs(keys, i, h))
    && (forall i, h :: Belongs(keys, i, h) ==> EntryOk(keys[i].s[|keys[h].s| + 1..], Text(vals[i])))
  }

  // ----- the whole file

  /** The entries of a section from slot j on, added to m. */
  ghost function EntryMap(keys: seq<CString>, vals: seq<CString>, section: string, j: nat, m: map<string, CString>)
    : map<string, CString>
    requires j <= |keys| == |vals|
    decreases |keys| - j
  {
    if j == |keys| then m
    else EntryMap(keys, vals, section, j + 1,
                  if Inside(keys[j], section) then m[keys[j].s := Str(Text(vals[j]))] else m)
  }

  /** The sections from slot i on, added to m. */
  ghost function SectionMap(keys: seq<CString>, vals: seq<CString>, i: nat, m: map<string, CString>): map<string, CString>
    requires i <= |keys| == |vals|
    decreases |keys| - i
  {
    if i == |keys| then m
    else SectionMap(keys, vals, i + 1,
                    if IsSection(keys[i]) then EntryMap(keys, vals, keys[i].s, 0, m[keys[i].s := NullStr]) else m)
  }

  lemma LineJoined(key: CString, val: CString, section: string, rest: string)
    requires Inside(key, section)
    ensures var k := key.s[|section| + 1..];
      && EntryLine(key, val, section) + "\n" + rest == Padded(k) + " = " + Text(val) + "\n" + rest
      && section + ":" + k == key.s
  {
    hide Padded;
    assert key.s == key.s[..|section| + 1] + key.s[|section| + 1..];
  }

  lemma Joined(a: string, b: string, c: string)
    ensures (a + b) + c == a + (b + c) && "" + b == b
  {
  }

  lemma {:induction false} EntriesLoaded(keys: seq<CString>, vals: seq<CString>, h: nat, j: nat,
                                         m: map<string, CString>, rest: string)
    requires WellFormed(keys, vals) && h < |keys| && IsSection(keys[h]) && j <= |keys|
    ensures LoadFrom(Loading([], keys[h].s, 0, m), EntryLines(keys, vals, keys[h].s, j) + rest) ==
            LoadFrom(Loading([], keys[h].s, 0, EntryMap(keys, vals, keys[h].s, j, m)), rest)
    decreases |keys| - j
  {
    hide LoadFrom, EntryLine, Padded, EntryOk;
    var section := keys[h].s;
    if j == |keys| {
      Joined("", rest, rest);
    } else {
      var more := EntryLines(keys, vals, section, j + 1);
      if Inside(keys[j], section) {
        assert Belongs(keys, j, h);
        EntryInside(keys, vals, j, h, m, more + rest);
        Joined(EntryLine(keys[j], vals[j], section) + "\n", more, rest);
        EntriesLoaded(keys, vals, h, j + 1, m[keys[j].s := Str(Text(vals[j]))], rest);
      } else {
        Joined("", more, rest);
        EntriesLoaded(keys, vals, h, j + 1, m, rest);
      }
    }
  }

  lemma EntryInside(keys: seq<CString>, vals: seq<CString>, j: nat, h: nat, m: map<string, CString>, rest: string)
    requires WellFormed(keys, vals) && Belongs(keys, j, h)
    ensures LoadFrom(Loading([], keys[h].s, 0, m), EntryLine(keys[j], vals[j], keys[h].s) + "\n" + rest) ==
            LoadFrom(Loading([], keys[h].s, 0, m[keys[j].s := Str(Text(vals[j]))]), rest)
  {
    hide LoadFrom, Padded, EntryOk, Text, EntryLine;
    LineJoined(keys[j], vals[j], keys[h].s, rest);
    EntryLoaded(m, keys[h].s, keys[j].s[|keys[h].s| + 1..], Text(vals[j]), rest);
  }

  lemma {:induction false} SectionsLoaded(keys: seq<CString>, vals: seq<CString>, i: nat,
                                          section: string, m: map<string, CString>)
    requires WellFormed(keys, vals) && i <= |keys|
    ensures LoadFrom(Loading([], section, 0, m), SectionLines(keys, vals, i)) == Dict(SectionMap(keys, vals, i, m))
    decreases |keys| - i
  {
    hide EntryLines, EntryMap, SectionHead;
    if i == |keys| {
      EndLoaded(section, m);
    } else if IsSection(keys[i]) {
      hide LoadFrom;
      var entries, more := EntryLines(keys, vals, keys[i].s, 0), SectionLines(keys, vals, i + 1);
      var m1 := m[keys[i].s := NullStr];
      Joined(SectionHead(keys[i].s), entries, more);
      SectionLoaded(Loading([], section, 0, m), keys[i].s, entries + more);
      EntriesLoaded(keys, vals, i, 0, m1, more);
      SectionsLoaded(keys, vals, i + 1, keys[i].s, EntryMap(keys, vals, keys[i].s, 0, m1));
    } else {
      hide LoadFrom;
      Joined("", SectionLines(keys, vals, i + 1), "");
      SectionsLoaded(keys, vals, i + 1, section, m);
    }
  }

  /** The last, empty line, and the end of the file. */
  lemma EndLoaded(section: string, m: map<string, CString>)
    ensures LoadFrom(Loading([], section, 0, m), "\n") == Dict(m)
  {
    var st := Loading([], section, 0, m);
    assert "\n" + "" == "\n";
    EmptyLineLoaded(st, "");
    LoadRound(st, "", "", "");
  }

  // ----- the dictionary that was loaded

  /** What is stored and loaded again: a missing value of an entry is empty. */
  function Saved(m: map<string, CString>): map<string, CString> {
    map k | k in m :: if ':' in k then Str(Text(m[k])) else m[k]
  }

  /** The value of slot j, loaded again. */
  function SlotValue(keys: seq<CString>, vals: seq<CString>, j: nat): CString
    requires j < |keys| == |vals| && keys[j].Str?
  {
    if IsSection(keys[j]) then vals[j] else Str(Text(vals[j]))
  }

  /** Everything in m comes from some slot. */
  ghost predicate FromSlots(keys: seq<CString>, vals: seq<CString>, m: map<string, CString>)
    requires |keys| == |vals|
  {
    forall k :: k in m ==> exists j :: 0 <= j < |keys| && keys[j] == Str(k) && m[k] == SlotValue(keys, vals, j)
  }

  lemma InsideHasColon(key: CString, section: string)
    requires Inside(key, section)
    ensures !IsSection(key)
  {
    assert key.s[..|section| + 1][|section|] == ':';
  }

  lemma {:induction false} EntryMapFacts(keys: seq<CString>, vals: seq<CString>, section: string, j: nat, m: map<string, CString>)
    requires j <= |keys| == |vals| && FromSlots(keys, vals, m)
    ensures FromSlots(keys, vals, EntryMap(keys, vals, section, j, m))
    ensures m.Keys <= EntryMap(keys, vals, section, j, m).Keys
    ensures forall e :: j <= e < |keys| && Inside(keys[e], section) ==> keys[e].s in EntryMap(keys, vals, section, j, m)
    decreases |keys| - j
  {
    if j < |keys| {
      if Inside(keys[j], section) {
        InsideHasColon(keys[j], section);
        var m1 := m[keys[j].s := Str(Text(vals[j]))];
        FromSlotsSet(keys, vals, m, j);
        EntryMapFacts(keys, vals, section, j + 1, m1);
        assert keys[j].s in m1.Keys;
      } else {
        EntryMapFacts(keys, vals, section, j + 1, m);
      }
    }
  }

  lemma FromSlotsSet(keys: seq<CString>, vals: seq<CString>, m: map<string, CString>, j: nat)
    requires j < |keys| == |vals| && FromSlots(keys, vals, m) && keys[j].Str?
    ensures FromSlots(keys, vals, m[keys[j].s := SlotValue(keys, vals, j)])
  {
    var m1 := m[keys[j].s := SlotValue(keys, vals, j)];
    forall k | k in m1
      ensures exists i :: 0 <= i < |keys| && keys[i] == Str(k) && m1[k] == SlotValue(keys, vals, i)
    {
      if k == keys[j].s {
        assert keys[j] == Str(k);
      }
    }
  }

  lemma NoValue(keys: seq<CString>, vals: seq<CString>, i: nat)
    requires WellFormed(keys, vals) && i < |keys| && IsSection(keys[i])
    ensures vals[i] == NullStr
  {
  }

  lemma {:induction false} SectionMapFacts(keys: seq<CString>, vals: seq<CString>, i: nat, m: map<string, CString>)
    requires |keys| == |vals| && WellFormed(keys, vals) && i <= |keys| && FromSlots(keys, vals, m)
    ensures FromSlots(keys, vals, SectionMap(keys, vals, i, m))
    ensures m.Keys <= SectionMap(keys, vals, i, m).Keys
    decreases |keys| - i
  {
    hide WellFormed, Inside, EntryMap, FromSlots;
    if i < |keys| {
      if IsSection(keys[i]) {
        var m1 := m[keys[i].s := NullStr];
        NoValue(keys, vals, i);
        FromSlotsSet(keys, vals, m, i);
        EntryMapFacts(keys, vals, keys[i].s, 0, m1);
        SectionMapFacts(keys, vals, i + 1, EntryMap(keys, vals, keys[i].s, 0, m1));
      } else {
        SectionMapFacts(keys, vals, i + 1, m);
      }
    }
  }

  /** Section h and its entries are there. */
  lemma {:induction false} SectionMapHas(keys: seq<CString>, vals: seq<CString>, i: nat, m: map<string, CString>, h: nat)
    requires |keys| == |vals| && WellFormed(keys, vals) && i <= h < |keys| && FromSlots(keys, vals, m) && IsSection(keys[h])
    ensures keys[h].s in SectionMap(keys, vals, i, m)
    ensures forall e :: 0 <= e < |keys| && Inside(keys[e], keys[h].s) ==> keys[e].s in SectionMap(keys, vals, i, m)
    decreases |keys| - i
  {
    hide WellFormed, Inside, EntryMap, FromSlots;
    if IsSection(keys[i]) {
      var m1 := m[keys[i].s := NullStr];
      NoValue(keys, vals, i);
      FromSlotsSet(keys, vals, m, i);
      EntryMapFacts(keys, vals, keys[i].s, 0, m1);
      var m2 := EntryMap(keys, vals, keys[i].s, 0, m1);
      if i == h {
        SectionMapFacts(keys, vals, i + 1, m2);
        assert keys[h].s in m1.Keys;
      } else {
        SectionMapHas(keys, vals, i + 1, m2, h);
      }
    } else {
      SectionMapHas(keys, vals, i + 1, m, h);
    }
  }

  /** A map that holds every slot and nothing else is the dictionary. */
  lemma SameAsSaved(keys: seq<CString>, vals: seq<CString>, m: map<string, CString>)
    requires |keys| == |vals| && Distinct(keys) && FromSlots(keys, vals, m)
    requires forall j :: 0 <= j < |keys| && keys[j].Str? ==> keys[j].s in m
    ensures m == Saved(Entries(keys, vals))
  {
    var d := Entries(keys, vals);
    forall k
      ensures k in m <==> k in d
      ensures k in m ==> m[k] == if ':' in k then Str(Text(d[k])) else d[k]
    {
      if k in m {
        var j :| 0 <= j < |keys| && keys[j] == Str(k) && m[k] == SlotValue(keys, vals, j);
        EntryAt(keys, vals, j);
      } else {
        NoEntry(keys, vals, k);
      }
    }
  }

  /** Loading what iniparser_dump_ini wrote gives the same dictionary, with empty
      strings for missing values. */
  lemma RoundTrip(keys: seq<CString>, vals: seq<CString>)
    requires WellFormed(keys, vals)
    ensures LoadFile(DumpText(keys, vals)) == Dict(Saved(Entries(keys, vals)))
  {
    hide LoadFrom, SectionLines, Entries, EntryOk, SectionOk;
    SectionsLoaded(keys, vals, 0, [], map[]);
    SectionMapFacts(keys, vals, 0, map[]);
    var m := SectionMap(keys, vals, 0, map[]);
    forall j | 0 <= j < |keys| && keys[j].Str?
      ensures keys[j].s in m
    {
      if IsSection(keys[j]) {
        SectionMapHas(keys, vals, 0, map[], j);
      } else {
        var h :| Belongs(keys, j, h);
        SectionMapHas(keys, vals, 0, map[], h);
      }
    }
    SameAsSaved(keys, vals, m);
  }

  /** A dictionary dumped to a file and loaded again. */
  method SaveAndLoad(d: Dictionary) returns (dict: Dictionary?)
    requires d.Valid() && WellFormed(d.key[..], d.val[..])
    ensures dict != null && dict.Valid() && dict.Contents() == Saved(d.Contents())
  {
    hide LoadFile, DumpText, WellFormed, Entries;
    RoundTrip(d.key[..], d.val[..]);
    var file := DumpIni(d);
    dict := Load(file);
  }

  /** There are such dictionaries: a section with one entry. */
  lemma SmallDictionary(v: string)
    requires EntryOk("k", v)
    ensures WellFormed([Str("a"), Str("a:k")], [NullStr, Str(v)])
  {
    var keys, vals := [Str("a"), Str("a:k")], [NullStr, Str(v)];
    assert IsSection(keys[0]) && !IsSection(keys[1]);
    assert SecCount(keys, 1) == 1;
    assert keys[1].s[2..] == "k" && Belongs(keys, 1, 0);
    hide EntryOk, SecCount;
  }
}
