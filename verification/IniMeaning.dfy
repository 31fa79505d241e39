/** What the lines of an ini file mean, whoever wrote them. */
module IniMeaning {
  import opened Ctype
  import opened Dictionaries
  import opened IniLine
  import opened IniFile
  import opened IniEntry
  import opened IniExact

  // ----- one line

  /** No section, and no key before the first '='. */
  predicate IsBad(l: string) {
    && l != [] && l[0] != '#' && !(l[0] == '[' && l[|l| - 1] == ']')
    && ('=' !in l || l[0] == '=')
  }

  /** The line l is a key, the first '=' at position n, and a value. */
  predicate IsEntry(l: string, n: int) {
    && 0 < n < |l| && l[n] == '=' && '=' !in l[..n]
    && l[0] != '#' && !(l[0] == '[' && l[|l| - 1] == ']')
  }

  lemma AtFirstEquals(l: string, n: nat)
    requires 0 < n < |l| && l[n] == '=' && '=' !in l[..n]
    ensures Before(l, {'='}) == l[..n]
    ensures AfterEquals(l) == (true, SkipSpace(l[n + 1..])) && SkipSpace(l[n..]) == l[n..]
  {
    forall i | 0 <= i < n
      ensures l[i] != '='
    {
      assert l[..n][i] == l[i];
    }
    BeforeAt(l, {'='}, n);
    AtEquals(l, n);
  }

  /** What the scans find: the text before '=' and the text behind it. */
  lemma ScansMean(l: string, n: nat)
    requires 0 < n < |l| && l[n] == '=' && '=' !in l[..n]
    ensures var w := SkipSpace(l[n + 1..]);
      && ScanUsual(l) == (if Usual(w) == [] then NoMatch else Match(l[..n], Usual(w)))
      && (Usual(w) == [] ==> ScanEmpty(l).Match? && ScanEmpty(l).key == l[..n])
  {
    AtFirstEquals(l, n);
    BeforeNone(SkipSpace(l[n + 1..]));
    Tail(l, n);
    WhileSome(l[n..]);
    hide AfterEquals, Before, SkipSpace, While;
  }

  lemma WhileSome(s: string)
    requires s != [] && s[0] == '='
    ensures While(s, {'='}) != []
  {
  }

  /** Without a key before '=' no scan matches. */
  lemma NoScan(l: string)
    requires '=' !in l || l[0] == '='
    ensures ScanUsual(l) == NoMatch && ScanEmpty(l) == NoMatch
  {
    if '=' !in l {
      BeforeAt(l, {'='}, |l|);
      assert l[|l|..] == [] && SkipSpace([]) == [];
    } else {
      BeforeAt(l, {'='}, 0);
    }
    hide SkipSpace, Before;
    assert '=' !in l ==> While([], {'='}) == [];
  }

  /** Every line, by its characters. */
  lemma LineMeans(x: string, section: string)
    ensures var l, line := Strip(x), ParseLine(x, section);
      && (line == EmptyLine <==> l == [])
      && (line == CommentLine <==> l != [] && l[0] == '#')
      && (line.SectionLine? <==> l != [] && l[0] == '[' && l[|l| - 1] == ']')
      && (line == ErrorLine <==> IsBad(l))
  {
    var l := Strip(x);
    hide Strip, ScanUsual, ScanEmpty, Lwc, UsualValue, Before;
    if '=' in l && l[0] != '=' {
      var n := FindEquals(l);
      ScansMean(l, n);
    } else if l != [] {
      NoScan(l);
    }
  }

  lemma {:induction false} FindEquals(l: string) returns (n: nat)
    requires '=' in l
    ensures n < |l| && l[n] == '=' && '=' !in l[..n]
  {
    if l[0] == '=' {
      n := 0;
    } else {
      n := FindEquals(l[1..]);
      n := n + 1;
      assert l[..n] == [l[0]] + l[1..][..n - 1];
    }
  }

  /** An entry's key is what stands before '=', without blanks and in lower case. */
  lemma EntryLineMeans(x: string, section: string, n: nat)
    requires IsEntry(Strip(x), n)
    ensures ParseLine(x, section) == ValueLine(Lwc(Strip(Strip(x)[..n])), ValueOf(SkipSpace(Strip(x)[n + 1..])))
  {
    var l := Strip(x);
    ScansMean(l, n);
    hide Strip, ScanUsual, ScanEmpty, Lwc, UsualValue, Before, Usual, SkipSpace;
  }

  // ----- values

  /** What a value is with a comment behind it. */
  lemma CutComment(v: string, c: char, t: string)
    requires v != [] && Trimmed(v) && ';' !in v && '#' !in v && v[0] != '\"' && v[0] != '\'' && (c == ';' || c == '#')
    ensures ValueOf(v + " " + [c] + t) == v
  {
    hide Before, Strip, SkipSpace, TrimEnd;
    var w, u := v + " " + [c] + t, v + " ";
    BeforeAt(w, {';', '#'}, |u|);
    assert w[..|u|] == u && w[0] == v[0];
    hide Trimmed;
    BlankBehind(v);
  }

  lemma BlankBehind(v: string)
    requires Trimmed(v) && v != []
    ensures Strip(v + " ") == v
  {
    hide SkipSpace, TrimEnd, Trimmed;
    TrimSnoc(v, ' ');
    StripTwice(v + " ");
    StripTwice(v);
    StripTrimmed(v);
  }

  /** A value in quotes, which may hold comment characters, and the text behind it. */
  lemma QuotedValue(v: string, q: char, t: string)
    requires v != [] && Trimmed(v) && (q == '\"' || q == '\'') && q !in v && v != "''" && v != "\"\""
    ensures ValueOf([q] + v + [q] + t) == v
  {
    hide Before, Strip, SkipSpace, TrimEnd, Trimmed;
    var w := [q] + v + [q] + t;
    UpToQuote(v, q, t);
    StripTrimmed(v);
  }

  lemma UpToQuote(v: string, q: char, t: string)
    requires q !in v
    ensures Before(([q] + v + [q] + t)[1..], {q}) == v
  {
    hide Before;
    var u := v + ([q] + t);
    assert ([q] + v + [q] + t)[1..] == u && u[..|v|] == v;
    forall i | 0 <= i < |v|
      ensures u[i] != q
    {
      assert u[i] == v[i];
    }
    BeforeAt(u, {q}, |v|);
  }

  lemma NoValue()
    ensures ValueOf("") == "" && ValueOf(";") == "" && ValueOf("#") == ""
  {
  }

  /** A pair of quotes with nothing between. */
  lemma QuotesOnly(q: char)
    requires q == '\"' || q == '\''
    ensures ValueOf([q, q]) == ""
  {
    hide Before, Strip, SkipSpace, TrimEnd;
    BeforeFirst([q, q][1..], q);
    BeforeAt([q, q], {';', '#'}, 2);
    assert [q, q][..2] == [q, q];
    StripTrimmed([q, q]);
  }

  // ----- files

  /** The last line of s is continued. */
  predicate Open(s: string) {
    TrimEnd(s) != [] && TrimEnd(s)[|TrimEnd(s)| - 1] == '\\'
  }

  /** A line that fits and is not continued in the next one. */
  predicate FileLine(x: string) {
    '\n' !in x && |x| + 1 < ASCIILINESZ && !Open(x)
  }

  lemma TakesLine(st: Loading, x: string, rest: string)
    requires st.prefix == [] && FileLine(x)
    ensures LoadFrom(st, x + "\n" + rest) == LoadFrom(Process(st, x), rest)
  {
    hide LoadFrom, ParseLine, TrimEnd;
    LineTrimmed(x, st.section);
    LoadLine(st, x, rest);
  }

  /** The text ends with the end of a line, and that line is not continued. */
  predicate Whole(a: string) {
    a == [] || (a[|a| - 1] == '\n' && !Open(a))
  }

  /** The loading state behind the lines a, if none of them is too long. */
  function AfterLines(st: Loading, a: string): (bool, Loading)
    decreases |a|
  {
    var chunk := Fgets(a, ASCIILINESZ - |st.prefix|);
    var buf := st.prefix + chunk;
    if a == [] then (true, st)
    else if chunk == [] || buf[|buf| - 1] != '\n' then (false, st)
    else AfterLines(Advance(st, buf), a[|chunk|..])
  }

  lemma {:induction false} FgetsSame(a: string, b: string, limit: int)
    requires a != [] && a[|a| - 1] == '\n'
    ensures Fgets(a + b, limit) == Fgets(a, limit)
    decreases |a|
  {
    if limit > 1 && a[0] != '\n' {
      FgetsSame(a[1..], b, limit - 1);
      assert (a + b)[1..] == a[1..] + b;
    }
  }

  lemma FgetsSome(a: string, limit: int)
    requires a != [] && limit > 1
    ensures Fgets(a, limit) != []
  {
  }

  lemma ShortPrefix(st: Loading, chunk: string)
    requires |st.prefix + chunk| < ASCIILINESZ && chunk != [] && (st.prefix + chunk)[|st.prefix + chunk| - 1] == '\n'
    ensures |Advance(st, st.prefix + chunk).prefix| < ASCIILINESZ - 1
  {
    hide ParseLine;
  }

  /** Loading goes on behind whole lines from the state behind them. */
  lemma {:induction false} LoadAfter(st: Loading, a: string, b: string)
    requires (a == [] || a[|a| - 1] == '\n') && |st.prefix| < ASCIILINESZ - 1
    ensures var (ok, st') := AfterLines(st, a);
      LoadFrom(st, a + b) == if ok then LoadFrom(st', b) else Failed
    decreases |a|
  {
    hide LoadFrom, Advance, Fgets;
    if a == [] {
      assert a + b == b;
    } else {
      var chunk := Fgets(a, ASCIILINESZ - |st.prefix|);
      FgetsSame(a, b, ASCIILINESZ - |st.prefix|);
      FgetsSome(a, ASCIILINESZ - |st.prefix|);
      LoadRound(st, a + b, chunk, st.prefix + chunk);
      if (st.prefix + chunk)[|st.prefix + chunk| - 1] == '\n' {
        ShortPrefix(st, chunk);
        LoadAfter(Advance(st, st.prefix + chunk), a[|chunk|..], b);
        assert (a + b)[|chunk|..] == a[|chunk|..] + b;
      }
    }
  }

  /** The last character of x + y that is not blank. */
  lemma {:induction false} LastMark(x: string, y: string)
    ensures TrimEnd(y) == [] ==> TrimEnd(x + y) == TrimEnd(x)
    ensures TrimEnd(y) != [] ==> TrimEnd(x + y) == x + TrimEnd(y)
    decreases |y|
  {
    if y == [] {
      assert x + y == x;
    } else {
      var u, c := y[..|y| - 1], y[|y| - 1];
      assert x + y == (x + u) + [c] && y == u + [c];
      TrimSnoc(x + u, c);
      TrimSnoc(u, c);
      LastMark(x, u);
    }
  }

  /** Whether the rest of a text leaves a line open is the same behind its first line. */
  lemma StaysClosed(st: Loading, buf: string, rest: string)
    requires !Open(buf + rest)
    ensures !Open(Advance(st, buf).prefix + rest)
    ensures rest == [] ==> Advance(st, buf).prefix == []
  {
    hide TrimEnd, Process;
    var p := Advance(st, buf).prefix;
    LastMark(buf, rest);
    LastMark(p, rest);
    NothingTrimmed();
    ProcessPrefix(st.(prefix := []), TrimEnd(buf));
  }

  /** Behind a text whose last line is not continued no line is open. */
  lemma {:induction false} WholeCloses(st: Loading, a: string)
    requires a == [] ==> st.prefix == []
    requires a != [] ==> a[|a| - 1] == '\n'
    requires !Open(st.prefix + a)
    ensures AfterLines(st, a).0 ==> AfterLines(st, a).1.prefix == []
    decreases |a|
  {
    hide Fgets, Advance, Open;
    if a != [] {
      var chunk := Fgets(a, ASCIILINESZ - |st.prefix|);
      var buf, rest := st.prefix + chunk, a[|chunk|..];
      if chunk != [] && buf[|buf| - 1] == '\n' {
        assert st.prefix + a == buf + rest;
        StaysClosed(st, buf, rest);
        WholeCloses(Advance(st, buf), rest);
      }
    }
  }

  lemma NothingTrimmed()
    ensures TrimEnd([]) == []
  {
  }

  lemma ProcessPrefix(st: Loading, text: string)
    ensures Process(st, text).prefix == st.prefix
  {
    hide ParseLine;
  }

  /** Loading from the first line on. */
  function Start(): Loading {
    Loading([], [], 0, map[])
  }

  /** A line whose first character that is not blank is '#', and a blank line, can be
      left out of any file. */
  lemma CommentsDropped(a: string, x: string, b: string)
    requires Whole(a) && FileLine(x) && (Strip(x) == [] || Strip(x)[0] == '#')
    ensures LoadFile(a + x + "\n" + b) == LoadFile(a + b)
  {
    hide LoadFrom, AfterLines, ParseLine, Strip, FileLine, TrimEnd;
    var st := AfterLines(Start(), a).1;
    WholeStart(a);
    LoadAfter(Start(), a, b);
    LoadAfter(Start(), a, x + "\n" + b);
    assert a + x + "\n" + b == a + (x + "\n" + b);
    if AfterLines(Start(), a).0 {
      LineMeans(x, st.section);
      TakesLine(st, x, b);
    }
  }

  lemma WholeStart(a: string)
    requires Whole(a)
    ensures AfterLines(Start(), a).0 ==> AfterLines(Start(), a).1.prefix == []
  {
    NothingTrimmed();
    hide TrimEnd, AfterLines;
    assert Start().prefix + a == a;
    WholeCloses(Start(), a);
  }

  /** A file whose last line is neither a comment, nor a section, nor has a key before
      the first '=', is not loaded. */
  lemma BadLineFails(a: string, x: string)
    requires Whole(a) && FileLine(x) && IsBad(Strip(x))
    ensures LoadFile(a + x + "\n") == Failed
  {
    hide LoadFrom, AfterLines, ParseLine, Strip, FileLine, TrimEnd;
    var st := AfterLines(Start(), a).1;
    WholeStart(a);
    LoadAfter(Start(), a, x + "\n" + "");
    assert a + x + "\n" == a + (x + "\n" + "");
    if AfterLines(Start(), a).0 {
      LineMeans(x, st.section);
      TakesLine(st, x, "");
      EndOfLines(Process(st, x));
    }
  }

  lemma EndOfLines(st: Loading)
    ensures LoadFrom(st, "") == if st.errs == 0 then Dict(st.m) else Failed
  {
    hide LoadFrom;
    LoadRound(st, "", "", st.prefix + "");
  }

  /** Such a line is forgotten as soon as a section or an entry follows. */
  lemma BadLineForgotten(a: string, x: string, y: string, b: string)
    requires Whole(a) && FileLine(x) && FileLine(y) && IsBad(Strip(x))
    requires Strip(y) != [] && Strip(y)[0] != '#' && !IsBad(Strip(y))
    ensures LoadFile(a + x + "\n" + y + "\n" + b) == LoadFile(a + y + "\n" + b)
  {
    hide LoadFrom, AfterLines, ParseLine, Strip, FileLine, TrimEnd;
    var st := AfterLines(Start(), a).1;
    WholeStart(a);
    LoadAfter(Start(), a, x + "\n" + (y + "\n" + b));
    LoadAfter(Start(), a, y + "\n" + b);
    assert a + x + "\n" + y + "\n" + b == a + (x + "\n" + (y + "\n" + b));
    assert a + y + "\n" + b == a + (y + "\n" + b);
    if AfterLines(Start(), a).0 {
      LineMeans(x, st.section);
      LineMeans(y, st.section);
      TakesLine(st, x, y + "\n" + b);
      TakesLine(st, y, b);
      TakesLine(Process(st, x), y, b);
    }
  }

  // ----- sections and entries in a file

  /** A section's line: its name without blanks and in lower case, and the section
      before it if there is no name. */
  lemma SectionLineMeans(x: string, section: string, n: nat)
    requires var l := Strip(x); 0 < n < |l| && l[0] == '[' && l[|l| - 1] == ']' && l[n] == ']' && ']' !in l[1..n]
    ensures ParseLine(x, section) == SectionLine(Lwc(Strip(if n == 1 then section else Strip(x)[1..n])))
  {
    hide Strip, Lwc, Before;
    var l := Strip(x);
    assert forall i :: 0 <= i < n - 1 ==> l[1..][i] == l[1..n][i];
    BeforeAt(l[1..], {']'}, n - 1);
    assert l[1..][..n - 1] == l[1..n];
  }

  /** A file with a section and one more line, of a key and a value. */
  lemma EntryInFile(s: string, x: string, n: nat)
    requires SectionOk(s) && FileLine(x) && IsEntry(Strip(x), n)
    ensures var k, v := Lwc(Strip(Strip(x)[..n])), ValueOf(SkipSpace(Strip(x)[n + 1..]));
      LoadFile("[" + s + "]\n" + x + "\n") == Dict(map[s := NullStr, s + ":" + k := Str(v)])
  {
    hide ParseLine, LoadFrom, Strip, SkipSpace, Lwc, FileLine, ValueOf, IsEntry;
    var head, st := "[" + s + "]", Loading([], s, 0, map[s := NullStr]);
    HeadFits(s);
    SectionKept(s, []);
    TakesLine(Start(), head, x + "\n" + "");
    assert head + "\n" + (x + "\n" + "") == "[" + s + "]\n" + x + "\n";
    assert map[][s := NullStr] == map[s := NullStr];
    TakesLine(st, x, "");
    EntryLineMeans(x, s, n);
    EndOfLines(Process(st, x));
  }

  lemma HeadFits(s: string)
    requires SectionOk(s)
    ensures FileLine("[" + s + "]")
  {
    StripTrimmed("[" + s + "]");
  }

  /** The line of a key and a value, each without blanks at its ends. */
  lemma WrittenEntry(s: string, k: string, w: string)
    requires SectionOk(s) && KeyOk(k) && |k| <= ASCIILINESZ && Trimmed(w)
    requires FileLine(k + " = " + w) && !LikeSection(k, w)
    ensures LoadFile("[" + s + "]\n" + k + " = " + w + "\n") == Dict(map[s := NullStr, s + ":" + k := Str(ValueOf(w))])
  {
    hide LoadFile, Strip, SkipSpace, Lwc, FileLine, ValueOf, KeyOk, SectionOk, Trimmed, LikeSection, IsEntry;
    var x, n := k + " = " + w, |k| + 1;
    WrittenStripped(k, w);
    WrittenKey(k);
    SkipOneSpace(w);
    EntryInFile(s, x, n);
    assert "[" + s + "]\n" + x + "\n" == "[" + s + "]\n" + k + " = " + w + "\n";
  }

  lemma WrittenKey(k: string)
    requires KeyOk(k) && |k| <= ASCIILINESZ
    ensures Lwc(Strip(k + " ")) == k
  {
    hide Strip, Lwc, Trimmed, Lowered;
    BlankBehind(k);
    LwcLowered(k);
  }

  lemma WrittenStripped(k: string, w: string)
    requires KeyOk(k) && Trimmed(w) && !LikeSection(k, w)
    ensures var l, n := Strip(k + " = " + w), |k| + 1;
      IsEntry(l, n) && l[..n] == k + " " && l[n + 1..] == if w == [] then [] else " " + w
  {
    hide Strip, Trimmed, Lowered;
    var l, n := Strip(k + " = " + w), |k| + 1;
    WrittenTrimmed(k, w);
    var u := if w == [] then [] else " " + w;
    assert l == (k + " ") + ("=" + u);
    Parts(k + " ", u);
    assert '=' !in k + " " && l[0] == k[0];
    assert l[|l| - 1] == if w == [] then '=' else w[|w| - 1];
  }

  lemma Parts(x: string, u: string)
    ensures var l := x + ("=" + u);
      |l| == |x| + 1 + |u| && l[..|x|] == x && l[|x|] == '=' && l[|x| + 1..] == u
  {
  }

  lemma WrittenTrimmed(k: string, w: string)
    requires KeyOk(k) && Trimmed(w)
    ensures Strip(k + " = " + w) == if w == [] then k + " =" else k + " = " + w
  {
    hide SkipSpace, TrimEnd, Lowered;
    if w == [] {
      assert k + " = " + w == k + " =" + " ";
      BlankBehind(k + " =");
    } else {
      StripTrimmed(k + " = " + w);
    }
  }

  /** The forms in which a value can be written, and what is loaded. */
  lemma ValueForms(s: string, k: string, v: string, q: char, c: char, t: string)
    requires SectionOk(s) && KeyOk(k) && k[0] != '[' && |k| + |v| + |t| + 8 < ASCIILINESZ
    requires v != [] && Trimmed(v) && '\n' !in v && '\n' !in k && v[|v| - 1] != '\\'
    requires Trimmed(t) && '\n' !in t && (t != [] ==> t[|t| - 1] != '\\')
    requires (q == '\"' || q == '\'') && (c == ';' || c == '#')
    ensures ';' !in v && '#' !in v && v[0] != '\"' && v[0] != '\'' ==>
            LoadFile("[" + s + "]\n" + k + " = " + (v + " " + [c] + t) + "\n") == Dict(map[s := NullStr, s + ":" + k := Str(v)])
    ensures q !in v && v != "''" && v != "\"\"" ==>
            LoadFile("[" + s + "]\n" + k + " = " + ([q] + v + [q] + t) + "\n") == Dict(map[s := NullStr, s + ":" + k := Str(v)])
  {
    hide LoadFile, ValueOf, KeyOk, SectionOk, FileLine;
    assert |k| > 0 by {
      KeySome(k);
    }
    if ';' !in v && '#' !in v && v[0] != '\"' && v[0] != '\'' {
      CutComment(v, c, t);
      WrittenFits(k, v + " " + [c] + t);
      WrittenEntry(s, k, v + " " + [c] + t);
    }
    if q !in v && v != "''" && v != "\"\"" {
      QuotedValue(v, q, t);
      WrittenFits(k, [q] + v + [q] + t);
      WrittenEntry(s, k, [q] + v + [q] + t);
    }
  }

  lemma KeySome(k: string)
    requires KeyOk(k)
    ensures k != []
  {
  }

  lemma WrittenFits(k: string, w: string)
    requires '\n' !in k && '\n' !in w && |k| + |w| + 4 < ASCIILINESZ && Trimmed(w) && (w != [] ==> w[|w| - 1] != '\\')
    ensures FileLine(k + " = " + w)
  {
    hide Trimmed;
    var x := k + " = " + w;
    TrimSnoc(k + " =", ' ');
    TrimSnoc(k + " ", '=');
    assert k + " =" + " " == k + " = " && k + " " + "=" == k + " =";
    if w == [] {
      assert x == k + " = ";
    } else {
      LastMark(k + " = ", w);
      StripTrimmed(w);
    }
  }

  /** A key without a value, or with a comment or a pair of quotes in its place, has
      the empty value. */
  lemma EmptyForms(s: string, k: string, w: string)
    requires SectionOk(s) && KeyOk(k) && '\n' !in k && |k| + 6 < ASCIILINESZ
    requires w == "" || w == ";" || w == "#" || w == "\"\"" || w == "''"
    ensures LoadFile("[" + s + "]\n" + k + " = " + w + "\n") == Dict(map[s := NullStr, s + ":" + k := Str("")])
  {
    hide LoadFile, ValueOf, KeyOk, SectionOk, FileLine;
    NoValue();
    if w == "\"\"" || w == "''" {
      QuotesOnly(w[0]);
      assert w == [w[0], w[0]];
    }
    WrittenFits(k, w);
    WrittenEntry(s, k, w);
  }

  // ----- the ends of lines

  /** A line that ends in a backslash goes on in the next one. */
  lemma LinesJoin(st: Loading, x: string, y: string, rest: string)
    requires st.prefix == [] && '\n' !in x && '\n' !in y && |x| + |y| + 2 < ASCIILINESZ
    ensures LoadFrom(st, x + "\\\n" + y + "\n" + rest) == LoadFrom(st, x + y + "\n" + rest)
  {
    hide LoadFrom, Process, TrimEnd;
    var line, more := x + "\\", y + "\n" + rest;
    assert x + "\\\n" + y + "\n" + rest == line + "\n" + more;
    assert x + y + "\n" + rest == (x + y) + "\n" + rest;
    TrimSnoc(line, '\n');
    TrimSnoc(x, '\\');
    LineTaken(st, line, more);
    assert st.prefix + (line + "\n") == line + "\n";
    assert line[..|line| - 1] == x;
    LineTaken(st.(prefix := x), y, rest);
    LineTaken(st, x + y, rest);
    assert x + (y + "\n") == st.prefix + (x + y + "\n");
  }

  /** A file that does not end with the end of a line is not loaded. */
  lemma {:induction false} LastLineOpen(st: Loading, file: string)
    requires file != [] && file[|file| - 1] != '\n' && |st.prefix| < ASCIILINESZ - 1
    ensures LoadFrom(st, file) == Failed
    decreases |file|
  {
    hide LoadFrom, Advance, Fgets;
    var chunk := Fgets(file, ASCIILINESZ - |st.prefix|);
    var buf := st.prefix + chunk;
    FgetsSome(file, ASCIILINESZ - |st.prefix|);
    LoadRound(st, file, chunk, buf);
    if buf[|buf| - 1] == '\n' {
      ShortPrefix(st, chunk);
      LastLineOpen(Advance(st, buf), file[|chunk|..]);
    }
  }

  lemma {:induction false} FgetsFull(x: string, b: string, limit: nat)
    requires '\n' !in x && |x| >= limit - 1
    ensures limit >= 1 ==> Fgets(x + b, limit) == x[..limit - 1]
  {
    if limit > 1 {
      assert (x + b)[1..] == x[1..] + b && (x + b)[0] == x[0] && x[0] in x;
      FgetsFull(x[1..], b, limit - 1);
      assert x[..limit - 1] == [x[0]] + x[1..][..limit - 2];
    }
  }

  /** A file is not loaded if its last line is open or a line is too long. */
  lemma LinesEnd(a: string, x: string, b: string)
    requires Whole(a) && '\n' !in x
    ensures x != [] ==> LoadFile(a + x) == Failed
    ensures |x| >= 1023 ==> LoadFile(a + x + b) == Failed
  {
    hide LoadFrom, AfterLines, Fgets, TrimEnd;
    if x != [] {
      assert (a + x)[|a + x| - 1] == x[|x| - 1] && x[|x| - 1] in x;
      LastLineOpen(Start(), a + x);
    }
    if |x| >= 1023 {
      var st := AfterLines(Start(), a).1;
      WholeStart(a);
      LoadAfter(Start(), a, x + b);
      assert a + x + b == a + (x + b);
      if AfterLines(Start(), a).0 {
        FgetsFull(x, b, ASCIILINESZ);
        LoadRound(st, x + b, x[..1023], st.prefix + x[..1023]);
        assert x[..1023][1022] == x[1022];
      }
    }
  }
}
