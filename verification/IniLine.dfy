/** One line of an ini file. Strings hold no NUL character. */
module IniLine {
  import opened Ctype

  const ASCIILINESZ := 1024

  // ----- characters and blanks

  function SkipSpace(s: string): (r: string)
    ensures r == [] || !IsSpace(r[0])
    ensures |r| <= |s| && r == s[|s| - |r|..]
  {
    if s != [] && IsSpace(s[0]) then SkipSpace(s[1..]) else s
  }

  /** s without the blanks at its end. */
  function TrimEnd(s: string): (r: string)
    ensures |r| <= |s| && r == s[..|r|]
    ensures r == [] || !IsSpace(r[|r| - 1])
  {
    if s != [] && IsSpace(s[|s| - 1]) then TrimEnd(s[..|s| - 1]) else s
  }

  /** What strstrip returns. */
  function Strip(s: string): string {
    TrimEnd(SkipSpace(s))
  }

  function LowerAll(s: string): (r: string)
    ensures |r| == |s| && forall i :: 0 <= i < |s| ==> r[i] == ToLower(s[i])
  {
    seq(|s|, i requires 0 <= i < |s| => ToLower(s[i]))
  }

  /** What strlwc returns. */
  function Lwc(s: string): string {
    LowerAll(if |s| <= ASCIILINESZ then s else s[..ASCIILINESZ])
  }

  /** strlwc */
  method Strlwc(s: string) returns (buf: string)
    ensures buf == Lwc(s)
    ensures |buf| == if |s| < 1024 then |s| else 1024
    ensures forall i :: 0 <= i < |buf| ==> buf[i] == if 65 <= s[i] as int <= 90 then (s[i] as int + 32) as char else s[i]
  {
    buf := "";
    var i := 0;
    while i < |s| && i < ASCIILINESZ
      invariant i == |buf| && i <= |s| && i <= ASCIILINESZ
      invariant forall k :: 0 <= k < i ==> buf[k] == ToLower(s[k])
    {
      buf := buf + [ToLower(s[i])];
      i := i + 1;
    }
  }

  /** The second loop of strstrip. */
  method CutBlanks(s: string) returns (buf: string)
    ensures buf == TrimEnd(s)
  {
    buf := s;
    while buf != [] && IsSpace(buf[|buf| - 1])
      invariant TrimEnd(buf) == TrimEnd(s)
      decreases |buf|
    {
      buf := buf[..|buf| - 1];
    }
  }

  /** No blank at either end. */
  predicate Trimmed(s: string) {
    s == [] || (!IsSpace(s[0]) && !IsSpace(s[|s| - 1]))
  }

  /** s is r, at position i, between blanks. */
  ghost predicate Between(s: string, i: int, r: string) {
    && 0 <= i <= i + |r| <= |s| && s[i..i + |r|] == r
    && forall k :: 0 <= k < |s| && !(i <= k < i + |r|) ==> IsSpace(s[k])
  }

  lemma {:induction false} SkipBetween(s: string)
    ensures Between(s, |s| - |SkipSpace(s)|, SkipSpace(s))
  {
    if s != [] && IsSpace(s[0]) {
      SkipBetween(s[1..]);
      forall k | 0 <= k < |s| - |SkipSpace(s)|
        ensures IsSpace(s[k])
      {
        assert k > 0 ==> s[k] == s[1..][k - 1];
      }
    }
  }

  lemma {:induction false} TrimBetween(s: string)
    ensures Between(s, 0, TrimEnd(s))
    decreases |s|
  {
    if s != [] && IsSpace(s[|s| - 1]) {
      var u := s[..|s| - 1];
      TrimBetween(u);
      forall k | |TrimEnd(s)| <= k < |s|
        ensures IsSpace(s[k])
      {
        assert k < |u| ==> s[k] == u[k];
      }
    }
  }

  lemma StripBetween(s: string)
    ensures Trimmed(Strip(s)) && exists i :: Between(s, i, Strip(s))
  {
    var t := SkipSpace(s);
    SkipBetween(s);
    TrimBetween(t);
    hide SkipSpace, TrimEnd, IsSpace;
    var i := |s| - |t|;
    assert t == s[i..] && Strip(s) == t[..|Strip(s)|];
    assert forall k :: 0 <= k < |t| ==> t[k] == s[i + k];
    assert forall k :: i <= k < |s| ==> s[k] == t[k - i];
    assert Between(s, i, Strip(s));
  }

  /** strstrip: what stands between the blanks at both ends. */
  method Strstrip(s0: string) returns (buf: string)
    ensures buf == Strip(s0)
    ensures Trimmed(buf) && exists i :: Between(s0, i, buf)
  {
    var s := s0;
    while s != [] && IsSpace(s[0])
      invariant SkipSpace(s) == SkipSpace(s0)
      decreases |s|
    {
      s := s[1..];
    }
    buf := CutBlanks(s);
    StripBetween(s0);
  }

  predicate Lowered(s: string) {
    forall i :: 0 <= i < |s| ==> ToLower(s[i]) == s[i]
  }

  lemma StripTrimmed(s: string)
    requires Trimmed(s)
    ensures SkipSpace(s) == s && TrimEnd(s) == s && Strip(s) == s
  {
  }

  lemma LwcLowered(s: string)
    requires Lowered(s) && |s| <= ASCIILINESZ
    ensures Lwc(s) == s
  {
  }

  // ----- sscanf

  /** What %[^...] takes: the longest start of s without a stop character. */
  function Before(s: string, stop: set<char>): (r: string)
    ensures |r| <= |s| && r == s[..|r|]
    ensures forall i :: 0 <= i < |r| ==> r[i] !in stop
    ensures |r| < |s| ==> s[|r|] in stop
  {
    if s == [] || s[0] in stop then [] else [s[0]] + Before(s[1..], stop)
  }

  /** What %[...] takes: the longest start of s of these characters. */
  function While(s: string, set0: set<char>): (r: string)
    ensures |r| <= |s| && r == s[..|r|]
    ensures forall i :: 0 <= i < |r| ==> r[i] in set0
    ensures |r| < |s| ==> s[|r|] !in set0
  {
    if s == [] || s[0] !in set0 then [] else [s[0]] + While(s[1..], set0)
  }

  datatype Scan = NoMatch | Match(key: string, value: string)

  /** What is left after "%[^=] = ". */
  function AfterEquals(line: string): (r: (bool, string)) {
    var key := Before(line, {'='});
    var rest := SkipSpace(line[|key|..]);
    if key == [] || rest == [] || rest[0] != '=' then (false, "") else (true, SkipSpace(rest[1..]))
  }

  /** "%[^=] = q%[^q]q" for a quote q, when it assigns both. */
  function ScanQuoted(line: string, quote: char): Scan {
    var (ok, rest) := AfterEquals(line);
    if !ok || rest == [] || rest[0] != quote then NoMatch
    else
      var value := Before(rest[1..], {quote});
      if value == [] then NoMatch else Match(Before(line, {'='}), value)
  }

  /** "%[^=] = %[^;#]", when it assigns both. */
  function ScanPlain(line: string): Scan {
    var (ok, rest) := AfterEquals(line);
    var value := Before(rest, {';', '#'});
    if !ok || value == [] then NoMatch else Match(Before(line, {'='}), value)
  }

  /** "%[^=] = %[;#]", when it assigns both. */
  function ScanComment(line: string): Scan {
    var (ok, rest) := AfterEquals(line);
    var value := While(rest, {';', '#'});
    if !ok || value == [] then NoMatch else Match(Before(line, {'='}), value)
  }

  /** "%[^=] %[=]", when it assigns both. */
  function ScanEquals(line: string): Scan {
    var key := Before(line, {'='});
    var value := While(SkipSpace(line[|key|..]), {'='});
    if key == [] || value == [] then NoMatch else Match(key, value)
  }

  // ----- iniparser_line

  datatype Line = EmptyLine | CommentLine | SectionLine(name: string) | ValueLine(key: string, value: string) | ErrorLine

  /** The first of the three usual forms that matches. */
  function ScanUsual(line: string): Scan {
    var double := ScanQuoted(line, '\"');
    if double.Match? then double
    else
      var single := ScanQuoted(line, '\'');
      if single.Match? then single else ScanPlain(line)
  }

  function ScanEmpty(line: string): Scan {
    var comment := ScanComment(line);
    if comment.Match? then comment else ScanEquals(line)
  }

  /** The value of one of the usual forms. */
  function UsualValue(value: string): string {
    if Strip(value) == "\"\"" || Strip(value) == "''" then "" else Strip(value)
  }

  /** What a line means after the section that came before it. */
  function ParseLine(input: string, section: string): Line {
    var line := Strip(input);
    if line == [] then EmptyLine
    else if line[0] == '#' then CommentLine
    else if line[0] == '[' && line[|line| - 1] == ']' then
      var name := Before(line[1..], {']'});
      SectionLine(Lwc(Strip(if name == [] then section else name)))
    else if ScanUsual(line).Match? then
      ValueLine(Lwc(Strip(ScanUsual(line).key)), UsualValue(ScanUsual(line).value))
    else if ScanEmpty(line).Match? then
      ValueLine(Lwc(Strip(ScanEmpty(line).key)), "")
    else ErrorLine
  }

  /** iniparser_line */
  method IniparserLine(input: string, section: string) returns (sta: Line)
    ensures sta == ParseLine(input, section)
  {
    var line := Strstrip(input);
    var len := |line|;
    if len < 1 {
      sta := EmptyLine;
    } else if line[0] == '#' {
      sta := CommentLine;
    } else if line[0] == '[' && line[len - 1] == ']' {
      var name := Before(line[1..], {']'});
      if name == [] {
        name := section;
      }
      name := Strstrip(name);
      name := Strlwc(name);
      sta := SectionLine(name);
    } else {
      var scan := ScanUsual(line);
      var usual := scan.Match?;
      if !usual {
        scan := ScanEmpty(line);
      }
      if scan.Match? {
        var key := Strstrip(scan.key);
        key := Strlwc(key);
        var value := "";
        if usual {
          value := Strstrip(scan.value);
          if value == "\"\"" || value == "''" {
            value := "";
          }
        }
        sta := ValueLine(key, value);
      } else {
        sta := ErrorLine;
      }
    }
  }
}
