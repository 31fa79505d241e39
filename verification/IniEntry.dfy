/** One printed line, and what the parser and the loader make of it. */
module IniEntry {
  import opened Dictionaries
  import opened Ctype
  import opened IniLine
  import opened IniFile

  // ----- what survives

  /** A name that fits between brackets. */
  predicate SectionOk(s: string) {
    s != [] && Trimmed(s) && Lowered(s) && ']' !in s && '\n' !in s && |s| + 3 < ASCIILINESZ
  }

  /** A key that the parser gives back. */
  predicate KeyOk(k: string) {
    k != [] && Trimmed(k) && Lowered(k) && '=' !in k && k[0] != '#'
  }

  predicate IsQuote(c: char) {
    c == '\"' || c == '\''
  }

  /** A value that the parser gives back: no comment character, and a quote in front
      only alone or before a second one with more behind. */
  predicate ValueOk(v: string) {
    && Trimmed(v) && ';' !in v && '#' !in v
    && (v != [] && IsQuote(v[0]) ==> |v| == 1 || (v[1] == v[0] && |v| > 2))
  }

  /** The line would be taken for a section. */
  predicate LikeSection(k: string, v: string) {
    k != [] && k[0] == '[' && v != [] && v[|v| - 1] == ']'
  }

  /** The line goes on in the next one. */
  predicate Continues(v: string) {
    v != [] && v[|v| - 1] == '\\'
  }

  /** A key and a value on one line that the buffer holds. */
  predicate OneLine(k: string, v: string) {
    '\n' !in k && '\n' !in v && |Padded(k)| + 3 + |v| + 1 < ASCIILINESZ
  }

  /** A key and a value that are loaded as they were printed. */
  predicate EntryOk(k: string, v: string) {
    KeyOk(k) && ValueOk(v) && !LikeSection(k, v) && !Continues(v) && OneLine(k, v)
  }

  // ----- scanning

  lemma {:induction false} SkipAll(s: string, n: nat)
    requires n <= |s| && (forall i :: 0 <= i < n ==> IsSpace(s[i])) && (n < |s| ==> !IsSpace(s[n]))
    ensures SkipSpace(s) == s[n..]
  {
    if n > 0 {
      SkipAll(s[1..], n - 1);
    }
  }

  lemma {:induction false} TrimTo(s: string, n: nat)
    requires n <= |s| && (forall i :: n <= i < |s| ==> IsSpace(s[i])) && (n > 0 ==> !IsSpace(s[n - 1]))
    ensures TrimEnd(s) == s[..n]
    decreases |s|
  {
    if n < |s| {
      TrimTo(s[..|s| - 1], n);
    }
  }

  lemma {:induction false} BeforeAt(s: string, stop: set<char>, n: nat)
    requires n <= |s| && (forall i :: 0 <= i < n ==> s[i] !in stop) && (n < |s| ==> s[n] in stop)
    ensures Before(s, stop) == s[..n]
  {
    if n > 0 {
      BeforeAt(s[1..], stop, n - 1);
    }
  }

  lemma {:induction false} FgetsLine(line: string, rest: string, limit: int)
    requires '\n' !in line && |line| + 1 < limit
    ensures Fgets(line + "\n" + rest, limit) == line + "\n"
    decreases |line|
  {
    var file := line + "\n" + rest;
    if line == [] {
      assert file[0] == '\n';
    } else {
      FgetsLine(line[1..], rest, limit - 1);
      assert file[1..] == line[1..] + "\n" + rest;
      assert file[0] == line[0] && line[0] in line;
      assert [line[0]] + (line[1..] + "\n") == line + "\n";
    }
  }

  lemma TrimmedLine(st: Loading, buf: string)
    requires st.prefix == []
    requires TrimEnd(buf) == [] || TrimEnd(buf)[|TrimEnd(buf)| - 1] != '\\'
    ensures Advance(st, buf) == Process(st, TrimEnd(buf))
  {
    hide Process, TrimEnd;
  }

  /** A line of the file that is neither too long nor continued. */
  lemma LoadLine(st: Loading, line: string, rest: string)
    requires st.prefix == [] && '\n' !in line && |line| + 1 < ASCIILINESZ
    requires var text := TrimEnd(line + "\n"); text == [] || text[|text| - 1] != '\\'
    ensures LoadFrom(st, line + "\n" + rest) == LoadFrom(Process(st, TrimEnd(line + "\n")), rest)
  {
    hide Process, TrimEnd, Fgets, LoadFrom, Advance;
    TrimmedLine(st, line + "\n");
    var file, chunk := line + "\n" + rest, line + "\n";
    FgetsLine(line, rest, ASCIILINESZ);
    assert st.prefix + chunk == chunk;
    LoadRound(st, file, chunk, chunk);
    assert file[|chunk|..] == rest;
    assert st.(prefix := []) == st;
  }

  // ----- the lines of a dump

  lemma EmptyLineLoaded(st: Loading, rest: string)
    requires st.prefix == []
    ensures LoadFrom(st, "\n" + rest) == LoadFrom(st, rest)
  {
    TrimTo("\n", 0);
    assert "" + "\n" == "\n";
    LoadLine(st, "", rest);
    assert Strip([]) == [];
  }

  /** A section's line gives its name back exactly if the name is trimmed, in lower
      case and without a closing bracket; without a name, the one before it counts. */
  lemma SectionParsed(name: string, section: string)
    requires |name| + 2 <= ASCIILINESZ && ']' !in section && |section| <= ASCIILINESZ
    ensures var kept := if name == [] then Strip(section) == [] else Trimmed(name) && Lowered(name) && ']' !in name;
      ParseLine("[" + name + "]", section) == SectionLine(name) <==> kept
  {
    hide Before, Strip, Lwc, Trimmed, Lowered;
    var b := Before(name + "]", {']'});
    SectionMeans(name, section);
    if ']' !in name {
      BeforeAt(name + "]", {']'}, |name|);
      assert (name + "]")[..|name|] == name;
      NameKept(if name == [] then section else name, name);
    } else {
      assert ']' !in b && (forall c :: c in b ==> c in name + "]");
      NameKept(if b == [] then section else b, name);
    }
  }

  lemma SectionMeans(name: string, section: string)
    ensures var b := Before(name + "]", {']'});
      ParseLine("[" + name + "]", section) == SectionLine(Lwc(Strip(if b == [] then section else b)))
  {
    hide Before, Lwc, Strip;
    var line := "[" + name + "]";
    SectionStripped(name);
    assert line[1..] == name + "]";
  }

  lemma SectionStripped(name: string)
    ensures Strip("[" + name + "]") == "[" + name + "]"
  {
    StripTrimmed("[" + name + "]");
  }

  /** Whether a name from the line is the name as it is loaded. */
  lemma NameKept(s: string, name: string)
    requires ']' !in s && |s| <= ASCIILINESZ
    ensures Lwc(Strip(s)) == name ==> Trimmed(name) && Lowered(name) && ']' !in name
    ensures s == name ==> (Lwc(Strip(s)) == name <==> Trimmed(name) && Lowered(name))
    ensures Lwc(Strip(s)) == [] <==> Strip(s) == []
  {
    StripBetween(s);
    StripShort(s);
    hide Strip;
    var t := Strip(s);
    var i :| Between(s, i, t);
    assert forall c :: c in t ==> c in s;
    LowerKeeps(t);
    if Trimmed(s) {
      StripTrimmed(s);
    }
  }

  lemma LowerKeeps(s: string)
    requires |s| <= ASCIILINESZ
    ensures Lowered(Lwc(s)) && (Trimmed(s) ==> Trimmed(Lwc(s))) && (Lowered(s) ==> Lwc(s) == s)
    ensures Lwc(s) == [] <==> s == []
    ensures ']' !in s ==> ']' !in Lwc(s)
    ensures '=' !in s ==> '=' !in Lwc(s)
  {
    var k := Lwc(s);
    assert forall i :: 0 <= i < |s| ==> k[i] == ToLower(s[i]);
    assert forall i :: 0 <= i < |s| ==> s[i] in s;
  }

  lemma SectionKept(name: string, section: string)
    requires SectionOk(name)
    ensures ParseLine("[" + name + "]", section) == SectionLine(name)
  {
    hide Before, Strip, Lwc, Trimmed, Lowered;
    SectionMeans(name, section);
    BeforeAt(name + "]", {']'}, |name|);
    assert (name + "]")[..|name|] == name;
    NameKept(name, name);
  }

  lemma SectionLoaded(st: Loading, name: string, rest: string)
    requires st.prefix == [] && SectionOk(name)
    ensures LoadFrom(st, SectionHead(name) + rest) == LoadFrom(Loading([], name, 0, st.m[name := NullStr]), rest)
  {
    hide ParseLine, LoadFrom;
    var line := "[" + name + "]";
    assert SectionHead(name) + rest == "\n" + (line + "\n" + rest);
    EmptyLineLoaded(st, line + "\n" + rest);
    TrimTo(line + "\n", |line|);
    assert (line + "\n")[..|line|] == line;
    LoadLine(st, line, rest);
    SectionKept(name, st.section);
  }

  /** An entry's line, as it is after its end was trimmed. */
  function Trimming(k: string, v: string): string {
    if v == [] then Padded(k) + " =" else Padded(k) + " = " + v
  }

  lemma EntryTrimmed(k: string, v: string)
    requires KeyOk(k) && Trimmed(v)
    ensures TrimEnd(Padded(k) + " = " + v + "\n") == Trimming(k, v)
  {
    var s, t := Padded(k) + " = " + v + "\n", Trimming(k, v);
    assert s[..|t|] == t;
    TrimTo(s, |t|);
  }

  /** The first '=' of the line. */
  lemma FirstEquals(k: string, v: string)
    requires KeyOk(k) && Trimmed(v)
    ensures var line, n := Trimming(k, v), |Padded(k)| + 1;
      && n < |line| && line[..n] == Padded(k) + " " && line[n] == '=' && Before(line, {'='}) == line[..n]
      && line[n + 1..] == if v == [] then [] else " " + v
  {
    hide Padded, Before, Trimmed, Lowered;
    var line, n := Trimming(k, v), |Padded(k)| + 1;
    var p := Padded(k);
    forall i | 0 <= i < n
      ensures line[i] != '='
    {
      if i < |k| {
        assert line[i] == p[i] == p[..|k|][i] == k[i];
      } else if i < |p| {
        assert line[i] == p[i] == ' ';
      }
    }
    BeforeAt(line, {'='}, n);
  }

  lemma EntryStart(k: string, v: string)
    requires KeyOk(k) && Trimmed(v)
    ensures var line := Trimming(k, v);
      line != [] && Strip(line) == line && line[0] == k[0] && line[|line| - 1] == if v == [] then '=' else v[|v| - 1]
  {
    hide Padded, SkipSpace, TrimEnd, Strip;
    var line := Trimming(k, v);
    assert line[0] == Padded(k)[..|k|][0];
    StripTrimmed(line);
  }

  lemma SkipOneSpace(v: string)
    requires Trimmed(v)
    ensures SkipSpace(if v == [] then [] else " " + v) == v
  {
    hide SkipSpace;
    if v != [] {
      assert (" " + v)[0] == ' ' && (" " + v)[1] == v[0] && (" " + v)[1..] == v;
      SkipAll(" " + v, 1);
    } else {
      SkipAll(v, 0);
      assert v[0..] == v;
    }
  }

  lemma SkipNone(s: string)
    requires s != [] && !IsSpace(s[0])
    ensures SkipSpace(s) == s
  {
  }

  lemma Tail(line: string, n: nat)
    requires n < |line|
    ensures line[n..] != [] && line[n..][0] == line[n] && line[n..][1..] == line[n + 1..]
  {
  }

  lemma AtEquals(line: string, n: nat)
    requires 0 < n < |line| && Before(line, {'='}) == line[..n] && line[n] == '='
    ensures AfterEquals(line) == (true, SkipSpace(line[n + 1..])) && SkipSpace(line[n..]) == line[n..]
  {
    hide Before, SkipSpace;
    Tail(line, n);
    SkipNone(line[n..]);
  }

  lemma EqualsOnly(line: string, n: nat)
    requires n < |line| && line[n] == '=' && line[n + 1..] == []
    ensures line[n..] == "="
  {
  }

  /** What the scans see of the line. */
  lemma EntryScanned(k: string, v: string)
    requires KeyOk(k) && Trimmed(v)
    ensures var line := Trimming(k, v);
      && Before(line, {'='}) == Padded(k) + " " && AfterEquals(line) == (true, v)
      && (v == [] ==> SkipSpace(line[|Padded(k) + " "|..]) == "=")
  {
    hide Padded, Before, SkipSpace, Trimming, AfterEquals;
    var line, n := Trimming(k, v), |Padded(k)| + 1;
    FirstEquals(k, v);
    AtEquals(line, n);
    SkipOneSpace(v);
    if v == [] {
      EqualsOnly(line, n);
    }
  }

  lemma KeyStripped(k: string)
    requires KeyOk(k) && |k| <= ASCIILINESZ
    ensures Lwc(Strip(Padded(k) + " ")) == k && Padded(k) + " " != []
  {
    hide Lwc, TrimEnd, SkipSpace;
    var s := Padded(k) + " ";
    assert s[..|k|] == Padded(k)[..|k|];
    SkipAll(s, 0);
    assert s[0] == s[..|k|][0] && s[0..] == s;
    assert k[|k| - 1] == s[..|k|][|k| - 1];
    TrimTo(s, |k|);
    LwcLowered(k);
  }

  /** What the scans for a value with text find in the text v behind '='. */
  function Usual(v: string): string {
    if v != [] && IsQuote(v[0]) && Before(v[1..], {v[0]}) != [] then Before(v[1..], {v[0]}) else Before(v, {';', '#'})
  }

  /** The value that the parser makes of the text v. */
  function ValueOf(v: string): string {
    if Usual(v) == [] then "" else UsualValue(Usual(v))
  }

  /** Which scans match. */
  lemma EntryMatched(k: string, v: string)
    requires KeyOk(k) && Trimmed(v)
    ensures var line, key := Trimming(k, v), Padded(k) + " ";
      && ScanUsual(line) == (if Usual(v) == [] then NoMatch else Match(key, Usual(v)))
      && (Usual(v) == [] ==> ScanEmpty(line).Match? && ScanEmpty(line).key == key)
  {
    hide Trimming, AfterEquals, Before, SkipSpace, Padded, Trimmed, Lowered, UsualValue, Strip;
    EntryScanned(k, v);
    assert While("=", {'='}) == "=";
    BeforeNone(v);
  }

  lemma BeforeNone(v: string)
    ensures Before(v, {';', '#'}) == [] <==> v == [] || v[0] == ';' || v[0] == '#'
    ensures v != [] && (v[0] == ';' || v[0] == '#') ==> While(v, {';', '#'}) != []
  {
  }

  /** What the parser makes of an entry's line. */
  lemma EntryMeans(k: string, v: string, section: string)
    requires KeyOk(k) && |k| <= ASCIILINESZ && Trimmed(v)
    ensures ParseLine(Trimming(k, v), section).SectionLine? <==> LikeSection(k, v)
    ensures !LikeSection(k, v) ==> ParseLine(Trimming(k, v), section) == ValueLine(k, ValueOf(v))
  {
    hide Trimming, Before, Padded, Trimmed, Lowered, UsualValue, Strip, ScanUsual, ScanEmpty, Lwc, Usual;
    EntryStart(k, v);
    EntryMatched(k, v);
    KeyStripped(k);
  }

  /** When the text of a value is its value. */
  lemma ValueKept(v: string)
    requires Trimmed(v)
    ensures ValueOf(v) == v <==> ValueOk(v)
  {
    hide Before, Strip, SkipSpace, TrimEnd, Trimmed;
    var u := Usual(v);
    StripShort(u);
    StripTrimmed(v);
    if v != [] && IsQuote(v[0]) && Before(v[1..], {v[0]}) != [] {
      assert |u| < |v| && |ValueOf(v)| < |v|;
      BeforeFirst(v[1..], v[0]);
    } else if ';' in v || '#' in v {
      BeforeShort(v);
    } else {
      BeforeAt(v, {';', '#'}, |v|);
      assert v[..|v|] == v;
      if v != [] {
        BeforeFirst(v[1..], v[0]);
      }
    }
  }

  lemma StripShort(s: string)
    ensures |Strip(s)| <= |s|
  {
  }

  lemma BeforeFirst(s: string, q: char)
    ensures Before(s, {q}) == [] <==> s == [] || s[0] == q
  {
  }

  lemma BeforeShort(v: string)
    requires ';' in v || '#' in v
    ensures |Before(v, {';', '#'})| < |v|
  {
  }

  /** Every scan that matches takes the key from the start of the line. */
  lemma KeyScanned(l: string)
    ensures ScanUsual(l).Match? ==> ScanUsual(l).key == Before(l, {'='}) != []
    ensures ScanEmpty(l).Match? ==> ScanEmpty(l).key == Before(l, {'='}) != []
  {
    hide Before, SkipSpace, While;
  }

  /** Whatever line a key and a value come from, they are as KeyOk and Trimmed say. */
  lemma ParsedIsOk(line: string, section: string, k: string, v: string)
    requires |line| <= ASCIILINESZ && ParseLine(line, section) == ValueLine(k, v)
    ensures KeyOk(k) && Trimmed(v)
  {
    hide Before, SkipSpace, TrimEnd, While, ScanUsual, ScanEmpty, KeyOk, Lwc, Strip, Between, IsSpace;
    var l := Strip(line);
    KeyScanned(l);
    StripBetween(line);
    if ScanUsual(l).Match? {
      StripBetween(ScanUsual(l).value);
    }
    StripShort(line);
    KeyFromLine(l, k);
  }

  lemma KeyFromLine(l: string, k: string)
    requires l != [] && Trimmed(l) && l[0] != '#' && |l| <= ASCIILINESZ
    requires Before(l, {'='}) != [] && k == Lwc(Strip(Before(l, {'='})))
    ensures KeyOk(k)
  {
    hide Before, SkipSpace, TrimEnd, IsSpace, Lwc, KeyOk;
    var key := Before(l, {'='});
    assert key[0] == l[..|key|][0] == l[0];
    SkipNone(key);
    TrimKeeps(key);
    StripBetween(key);
    assert '=' !in key;
    assert forall c :: c in TrimEnd(key) ==> c in key;
    hide Trimmed;
    LoweredOk(Strip(key));
  }

  lemma LoweredOk(s: string)
    requires s != [] && Trimmed(s) && '=' !in s && s[0] != '#' && |s| <= ASCIILINESZ
    ensures KeyOk(Lwc(s))
  {
    LowerKeeps(s);
    assert Lwc(s)[0] == ToLower(s[0]);
  }

  lemma {:induction false} TrimKeeps(s: string)
    requires s != [] && !IsSpace(s[0])
    ensures TrimEnd(s) != [] && TrimEnd(s)[0] == s[0]
    decreases |s|
  {
    if IsSpace(s[|s| - 1]) {
      TrimKeeps(s[..|s| - 1]);
    }
  }

  /** An entry's line gives its key and value back exactly if they are as KeyOk and
      ValueOk say and it is not taken for a section. */
  lemma EntryParsed(k: string, v: string, section: string)
    requires |Padded(k) + " = " + v| <= ASCIILINESZ
    ensures ParseLine(Padded(k) + " = " + v, section) == ValueLine(k, v) <==>
            KeyOk(k) && ValueOk(v) && !LikeSection(k, v)
  {
    hide ParseLine, Padded, Trimmed, KeyOk, Usual;
    var line := Padded(k) + " = " + v;
    if ParseLine(line, section) == ValueLine(k, v) {
      ParsedIsOk(line, section, k, v);
    }
    if KeyOk(k) && Trimmed(v) {
      SameLine(k, v, section);
      EntryMeans(k, v, section);
      ValueKept(v);
    }
  }

  /** Blanks at the ends of a line do not matter. */
  lemma SameLine(k: string, v: string, section: string)
    requires KeyOk(k) && Trimmed(v)
    ensures ParseLine(Padded(k) + " = " + v, section) == ParseLine(Trimming(k, v), section)
  {
    hide Padded, Trimmed, ParseLine, Trimming, KeyOk;
    var line := Padded(k) + " = " + v;
    EntryStart(k, v);
    LineStripped(k, v);
    ParseStripped(line, Trimming(k, v), section);
  }

  lemma ParseStripped(a: string, b: string, section: string)
    requires Strip(a) == Strip(b)
    ensures ParseLine(a, section) == ParseLine(b, section)
  {
    hide Strip, Lwc, ScanUsual, ScanEmpty, UsualValue, Before;
  }

  lemma LineStripped(k: string, v: string)
    requires KeyOk(k) && Trimmed(v)
    ensures Strip(Padded(k) + " = " + v) == Trimming(k, v)
  {
    var s, t := Padded(k) + " = " + v, Trimming(k, v);
    assert s[0] == Padded(k)[..|k|][0] == k[0];
    SkipNone(s);
    assert s[..|t|] == t;
    TrimTo(s, |t|);
  }

  lemma NoNewline(k: string, v: string)
    requires OneLine(k, v)
    ensures '\n' !in Padded(k) + " = " + v && |Padded(k) + " = " + v| + 1 < ASCIILINESZ
  {
    var p := Padded(k);
    forall i | 0 <= i < |p|
      ensures p[i] != '\n'
    {
      if i < |k| {
        assert p[i] == p[..|k|][i] == k[i];
      }
    }
  }

  /** The line of one entry. */
  lemma EntryLoaded(m: map<string, CString>, section: string, k: string, v: string, rest: string)
    requires EntryOk(k, v)
    ensures LoadFrom(Loading([], section, 0, m), Padded(k) + " = " + v + "\n" + rest) ==
            LoadFrom(Loading([], section, 0, m[section + ":" + k := Str(v)]), rest)
  {
    hide LoadFrom, ParseLine, TrimEnd, Trimming, Padded, KeyOk, ValueOk;
    var st, line := Loading([], section, 0, m), Padded(k) + " = " + v;
    NoNewline(k, v);
    ValueIsTrimmed(v);
    EntryTrimmed(k, v);
    EntryStart(k, v);
    EntryParsed(k, v, section);
    SameLine(k, v, section);
    LoadLine(st, line, rest);
  }

  lemma {:induction false} SkipSnoc(s: string, c: char)
    ensures SkipSpace(s + [c]) == if SkipSpace(s) == [] && IsSpace(c) then [] else SkipSpace(s) + [c]
  {
    hide IsSpace;
    if s == [] {
      assert s + [c] == [c] && [c][1..] == [];
    } else if IsSpace(s[0]) {
      SkipSnoc(s[1..], c);
      assert (s + [c])[1..] == s[1..] + [c];
    }
  }

  lemma TrimSnoc(s: string, c: char)
    ensures TrimEnd(s + [c]) == if IsSpace(c) then TrimEnd(s) else s + [c]
  {
    assert (s + [c])[..|s|] == s;
  }

  /** Blanks cut off at the end are cut off again by strstrip. */
  lemma {:induction false} StripTwice(s: string)
    ensures Strip(TrimEnd(s)) == Strip(s)
    decreases |s|
  {
    if s != [] && IsSpace(s[|s| - 1]) {
      var u, c := s[..|s| - 1], s[|s| - 1];
      assert s == u + [c];
      StripTwice(u);
      SkipSnoc(u, c);
      TrimSnoc(u, c);
      if SkipSpace(u) != [] {
        TrimSnoc(SkipSpace(u), c);
      }
    }
  }

  /** The line that the loader sees means what the printed one means. */
  lemma LineTrimmed(line: string, section: string)
    ensures TrimEnd(line + "\n") == TrimEnd(line)
    ensures ParseLine(TrimEnd(line + "\n"), section) == ParseLine(line, section)
  {
    TrimSnoc(line, '\n');
    StripTwice(line);
    ParseStripped(TrimEnd(line), line, section);
  }

  /** A trimmed value that ends in a backslash makes a continued line. */
  lemma LineContinues(k: string, v: string)
    requires Trimmed(v) && Continues(v)
    ensures TrimEnd(Padded(k) + " = " + v) == Padded(k) + " = " + v
  {
    hide Padded;
  }

  /** An entry that is printed is loaded again, in a dictionary that does not have it,
      exactly if it is as EntryOk says. */
  lemma EntryKept(m: map<string, CString>, section: string, k: string, v: string)
    requires OneLine(k, v) && section + ":" + k !in m
    ensures var st, st' := Loading([], section, 0, m), Loading([], section, 0, m[section + ":" + k := Str(v)]);
      Advance(st, Padded(k) + " = " + v + "\n") == st' <==> EntryOk(k, v)
  {
    hide ParseLine, TrimEnd, Padded, KeyOk, Trimmed, Trimming;
    var st, line := Loading([], section, 0, m), Padded(k) + " = " + v;
    NoNewline(k, v);
    EntryParsed(k, v, section);
    LineTrimmed(line, section);
    if EntryOk(k, v) {
      ValueIsTrimmed(v);
      EntryTrimmed(k, v);
      EntryStart(k, v);
    }
    if ValueOk(v) && Continues(v) {
      LineContinues(k, v);
    }
    hide ValueOk, OneLine;
    var parsed := ParseLine(line, section);
    if parsed.ValueLine? {
      MapGains(m, section + ":" + parsed.key, Str(parsed.value), section + ":" + k, Str(v));
      SameKey(section, parsed.key, k);
    } else if parsed.SectionLine? {
      MapGains(m, parsed.name, NullStr, section + ":" + k, Str(v));
    }
  }

  lemma MapGains(m: map<string, CString>, a: string, x: CString, b: string, y: CString)
    requires b !in m
    ensures m[a := x] == m[b := y] <==> a == b && x == y
    ensures m[b := y] != m
  {
    assert b in m[b := y];
    if m[a := x] == m[b := y] {
      assert b in m[a := x] && m[a := x][b] == y;
    }
  }

  lemma SameKey(section: string, a: string, b: string)
    ensures section + ":" + a == section + ":" + b <==> a == b
  {
    assert (section + ":" + a)[|section| + 1..] == a && (section + ":" + b)[|section| + 1..] == b;
  }

  lemma ValueIsTrimmed(v: string)
    requires ValueOk(v)
    ensures Trimmed(v)
  {
  }
}
