/** A file with one entry: exactly when it is loaded as it was printed. */
module IniExact {
  import opened Dictionaries
  import opened Ctype
  import opened IniLine
  import opened IniFile
  import opened IniEntry

  /** Any line that fits is taken in one round, continued or not. */
  lemma LineTaken(st: Loading, line: string, rest: string)
    requires '\n' !in line && |st.prefix| + |line| + 1 < ASCIILINESZ
    ensures LoadFrom(st, line + "\n" + rest) == LoadFrom(Advance(st, st.prefix + (line + "\n")), rest)
  {
    hide Fgets, LoadFrom, Advance;
    var file, chunk := line + "\n" + rest, line + "\n";
    FgetsLine(line, rest, ASCIILINESZ - |st.prefix|);
    LoadRound(st, file, chunk, st.prefix + chunk);
    assert file[|chunk|..] == rest;
  }

  /** What the empty line at the end of a file, and the end, make of it. */
  lemma FileEnds(st: Loading)
    requires |st.prefix| + 1 < ASCIILINESZ
    ensures var st' := Advance(st, st.prefix + "\n");
      LoadFrom(st, "\n") == if st'.errs == 0 then Dict(st'.m) else Failed
  {
    hide Advance, LoadFrom, Fgets;
    assert "" + "\n" + "" == "\n" && "" + "\n" == "\n";
    LineTaken(st, "", "");
    var st' := Advance(st, st.prefix + "\n");
    EndOfFile(st');
  }

  lemma EndOfFile(st: Loading)
    ensures LoadFrom(st, "") == if st.errs == 0 then Dict(st.m) else Failed
  {
    hide LoadFrom;
    LoadRound(st, "", "", st.prefix + "");
  }

  /** The value of a continued line lost its backslash. */
  lemma ContinuedLost(k: string, v: string, section: string)
    requires OneLine(k, v) && Continues(v)
    ensures ParseLine(TrimEnd(Padded(k) + " = " + v[..|v| - 1] + "\n"), section) != ValueLine(k, v)
  {
    hide ParseLine, Padded, Trimmed, KeyOk, TrimEnd, Strip, SkipSpace;
    var u := v[..|v| - 1];
    var line := Padded(k) + " = " + u;
    LineTrimmed(line, section);
    if ParseLine(line, section) == ValueLine(k, v) {
      ParsedIsOk(line, section, k, v);
      UntrimmedEnd(k, u);
      TrimmedPart(v);
      ParseStripped(line, Padded(k) + " = " + TrimEnd(u), section);
      SameLine(k, TrimEnd(u), section);
      EntryMeans(k, TrimEnd(u), section);
      ValueShort(TrimEnd(u));
    }
  }

  lemma {:induction false} TrimAppend(x: string, u: string)
    ensures TrimEnd(x + u) == TrimEnd(x + TrimEnd(u))
    decreases |u|
  {
    if u != [] && IsSpace(u[|u| - 1]) {
      var w, c := u[..|u| - 1], u[|u| - 1];
      assert x + u == (x + w) + [c];
      TrimSnoc(x + w, c);
      TrimAppend(x, w);
    }
  }

  lemma UntrimmedEnd(k: string, u: string)
    ensures Strip(Padded(k) + " = " + u) == Strip(Padded(k) + " = " + TrimEnd(u))
  {
    hide Padded, Strip, TrimEnd;
    TrimAppend(Padded(k) + " = ", u);
    StripTwice(Padded(k) + " = " + u);
    StripTwice(Padded(k) + " = " + TrimEnd(u));
  }

  lemma TrimmedPart(v: string)
    requires Trimmed(v) && v != []
    ensures Trimmed(TrimEnd(v[..|v| - 1]))
  {
  }

  lemma ValueShort(v: string)
    ensures |ValueOf(v)| <= |v|
  {
    hide Before, Strip;
    StripShort(Usual(v));
  }

  /** What is printed for one section with one entry. */
  lemma DumpOne(section: string, k: string, v: string)
    requires ':' !in section
    ensures DumpText([Str(section), Str(section + ":" + k)], [NullStr, Str(v)]) ==
            SectionHead(section) + ((Padded(k) + " = " + v) + "\n" + "\n")
    ensures SectionHead(section) == "\n[" + section + "]\n"
  {
    hide Padded;
    var keys, vals := [Str(section), Str(section + ":" + k)], [NullStr, Str(v)];
    assert IsSection(keys[0]) && !IsSection(keys[1]) by {
      assert (section + ":" + k)[|section|] == ':';
    }
    assert SecCount(keys, 1) == 1;
    assert Inside(keys[1], section) && !Inside(keys[0], section) && keys[1].s[|section| + 1..] == k;
    var line := Padded(k) + " = " + v;
    assert EntryLines(keys, vals, section, 2) == "";
    assert EntryLines(keys, vals, section, 1) == line + "\n" + "";
    assert EntryLines(keys, vals, section, 0) == line + "\n";
    assert SectionLines(keys, vals, 2) == "\n";
    assert SectionLines(keys, vals, 1) == "\n";
  }

  /** A section with one entry is loaded as it was printed exactly if the entry is as
      EntryOk says. */
  lemma OneEntry(section: string, k: string, v: string)
    requires SectionOk(section) && ':' !in section && OneLine(k, v)
    ensures var keys, vals := [Str(section), Str(section + ":" + k)], [NullStr, Str(v)];
      LoadFile(DumpText(keys, vals)) == Dict(map[section := NullStr, section + ":" + k := Str(v)]) <==> EntryOk(k, v)
  {
    hide DumpText, LoadFrom, ParseLine, TrimEnd, Padded, KeyOk, ValueOk, SectionOk, Process;
    var line, m := Padded(k) + " = " + v, map[section := NullStr];
    var st := Loading([], section, 0, m);
    DumpOne(section, k, v);
    NoNewline(k, v);
    SectionLoaded(Loading([], [], 0, map[]), section, (line + "\n") + "\n");
    assert map[][section := NullStr] == m;
    LineTaken(st, line, "\n");
    var st' := Advance(st, st.prefix + (line + "\n"));
    assert st.prefix + (line + "\n") == line + "\n";
    SameKey(section, "", k);
    assert (section + ":" + k)[|section|] == ':';
    OneEntryRead(m, section, k, v);
  }

  /** What a processed line adds to a dictionary that lacks an entry. */
  lemma ProcessAdds(m: map<string, CString>, section: string, text: string, k: string, v: string)
    requires section + ":" + k !in m
    ensures var st' := Process(Loading([], section, 0, m), text);
      && st'.prefix == []
      && (st'.errs == 0 && st'.m == m[section + ":" + k := Str(v)] <==> ParseLine(text, section) == ValueLine(k, v))
  {
    hide ParseLine;
    var parsed := ParseLine(text, section);
    MapGains(m, section + ":" + k, Str(v), section + ":" + k, Str(v));
    if parsed.ValueLine? {
      MapGains(m, section + ":" + parsed.key, Str(parsed.value), section + ":" + k, Str(v));
      SameKey(section, parsed.key, k);
    } else if parsed.SectionLine? {
      MapGains(m, parsed.name, NullStr, section + ":" + k, Str(v));
    }
  }

  /** The line of an entry and an empty one behind it. */
  lemma OneEntryRead(m: map<string, CString>, section: string, k: string, v: string)
    requires OneLine(k, v) && section + ":" + k !in m
    ensures var st := Advance(Loading([], section, 0, m), Padded(k) + " = " + v + "\n");
      LoadFrom(st, "\n") == Dict(m[section + ":" + k := Str(v)]) <==> EntryOk(k, v)
  {
    hide ParseLine, LoadFrom, Process, TrimEnd, Padded, KeyOk, ValueOk, Trimmed, Strip, Trimming;
    var st, line := Loading([], section, 0, m), Padded(k) + " = " + v;
    var text := TrimEnd(line + "\n");
    var st' := Advance(st, line + "\n");
    NoNewline(k, v);
    EntryParsed(k, v, section);
    LineTrimmed(line, section);
    if EntryOk(k, v) {
      ValueIsTrimmed(v);
      EntryTrimmed(k, v);
      EntryStart(k, v);
    }
    if text != [] && text[|text| - 1] == '\\' {
      OneEntryContinued(m, section, k, v);
    } else {
      ProcessAdds(m, section, text, k, v);
      FileEnds(st');
      EmptyAdvance(st');
      if Continues(v) && ValueOk(v) {
        ValueIsTrimmed(v);
        LineContinues(k, v);
      }
    }
  }

  lemma EmptyAdvance(st: Loading)
    requires st.prefix == []
    ensures Advance(st, st.prefix + "\n") == st
  {
    hide ParseLine;
    TrimTo("\n", 0);
    assert st.prefix + "\n" == "\n" && st.(prefix := []) == st;
    EmptyParsed(st.section);
  }

  lemma EmptyParsed(section: string)
    ensures ParseLine("", section) == EmptyLine
  {
    assert Strip([]) == [];
  }

  /** A line that is continued by the empty line behind it does not give its entry
      back. */
  lemma OneEntryContinued(m: map<string, CString>, section: string, k: string, v: string)
    requires OneLine(k, v) && section + ":" + k !in m
    requires var text := TrimEnd(Padded(k) + " = " + v + "\n"); text != [] && text[|text| - 1] == '\\'
    ensures var st := Advance(Loading([], section, 0, m), Padded(k) + " = " + v + "\n");
      LoadFrom(st, "\n") != Dict(m[section + ":" + k := Str(v)])
  {
    hide ParseLine, LoadFrom, Process, TrimEnd, Padded, KeyOk, ValueOk, Trimmed, Strip, Trimming;
    var line := Padded(k) + " = " + v;
    var text := TrimEnd(line + "\n");
    var st := Advance(Loading([], section, 0, m), line + "\n");
    var p := text[..|text| - 1];
    assert st == Loading(p, section, 0, m);
    NoNewline(k, v);
    FileEnds(st);
    MapGains(m, section + ":" + k, Str(v), section + ":" + k, Str(v));
    var next := TrimEnd(p + "\n");
    if next == [] || next[|next| - 1] != '\\' {
      assert st.(prefix := []) == Loading([], section, 0, m);
      ProcessAdds(m, section, next, k, v);
      LineTrimmed(line, section);
      if ParseLine(next, section) == ValueLine(k, v) {
        ParsedIsOk(next, section, k, v);
        EntryTrimmed(k, v);
        TrimmingEnd(k, v);
        LineContinues(k, v);
        assert p == Padded(k) + " = " + v[..|v| - 1];
        ContinuedLost(k, v, section);
      }
    }
  }

  lemma TrimmingEnd(k: string, v: string)
    ensures Trimming(k, v) != [] && Trimming(k, v)[|Trimming(k, v)| - 1] == if v == [] then '=' else v[|v| - 1]
  {
    hide Padded;
  }

  /** What follows a comment character is not loaded again. */
  lemma CommentLost()
    ensures LoadFile(DumpText([Str("a"), Str("a" + ":" + "k")], [NullStr, Str("x;y")])) !=
            Dict(map["a" := NullStr, "a" + ":" + "k" := Str("x;y")])
  {
    hide LoadFile, DumpText;
    assert ';' == "x;y"[1] && !ValueOk("x;y");
    OneEntry("a", "k", "x;y");
  }

  /** A quoted value loses its quotes, and a lone quote stays. */
  lemma QuotesLost()
    ensures LoadFile(DumpText([Str("a"), Str("a" + ":" + "k")], [NullStr, Str("'x'")])) !=
            Dict(map["a" := NullStr, "a" + ":" + "k" := Str("'x'")])
    ensures LoadFile(DumpText([Str("a"), Str("a" + ":" + "k")], [NullStr, Str("'")])) ==
            Dict(map["a" := NullStr, "a" + ":" + "k" := Str("'")])
  {
    hide LoadFile, DumpText;
    OneEntry("a", "k", "'x'");
    OneEntry("a", "k", "'");
  }
}
