/** Loading an ini file into a dictionary and printing a dictionary as one. */
module IniFile {
  import opened Dictionaries
  import opened IniLine

  // ----- iniparser_load

  /** fgets: the characters up to the end of the line, but fewer than limit. */
  function Fgets(file: string, limit: int): (r: string)
    ensures |r| <= |file| && r == file[..|r|] && (limit >= 1 ==> |r| < limit)
    decreases |file|
  {
    if limit <= 1 || file == [] then []
    else if file[0] == '\n' then ['\n']
    else [file[0]] + Fgets(file[1..], limit - 1)
  }

  /** The variables of the loading loop: the start of a continued line, the
      section, the error count and the dictionary. */
  datatype Loading = Loading(prefix: string, section: string, errs: nat, m: map<string, CString>)

  datatype Loaded = Failed | Dict(m: map<string, CString>)

  /** One logical line. A later success forgets earlier errors. */
  function Process(st: Loading, text: string): Loading {
    match ParseLine(text, st.section)
    case EmptyLine => st
    case CommentLine => st
    case SectionLine(name) => st.(section := name, errs := 0, m := st.m[name := NullStr])
    case ValueLine(key, value) => st.(errs := 0, m := st.m[st.section + ":" + key := Str(value)])
    case ErrorLine => st.(errs := st.errs + 1)
  }

  /** One physical line, behind the start of a continued one. */
  function Advance(st: Loading, buf: string): Loading {
    var text := TrimEnd(buf);
    if text != [] && text[|text| - 1] == '\\' then st.(prefix := text[..|text| - 1])
    else Process(st.(prefix := []), text)
  }

  /** What loading the rest of a file leads to. */
  function LoadFrom(st: Loading, file: string): Loaded
    decreases |file|
  {
    var chunk := Fgets(file, ASCIILINESZ - |st.prefix|);
    var buf := st.prefix + chunk;
    if chunk == [] then (if st.errs == 0 then Dict(st.m) else Failed)
    else if buf[|buf| - 1] != '\n' then Failed
    else LoadFrom(Advance(st, buf), file[|chunk|..])
  }

  function LoadFile(file: string): Loaded {
    LoadFrom(Loading([], [], 0, map[]), file)
  }

  /** The switch on the kind of line. */
  method ProcessLine(d: Dictionary, line: string, section0: string, errs0: nat) returns (section: string, errs: int)
    requires d.Valid()
    modifies d.Repr()
    ensures d.Valid() && fresh(d.Repr() - old(d.Repr()))
    ensures errs >= 0 && Loading([], section, errs, d.Contents()) == Process(Loading([], section0, errs0, old(d.Contents())), line)
  {
    hide ParseLine, Entries, Hash;
    section, errs := section0, errs0;
    var sta := IniparserLine(line, section);
    match sta {
      case EmptyLine =>
      case CommentLine =>
      case SectionLine(name) =>
        section := name;
        errs := d.Set(Str(section), NullStr);
      case ValueLine(key, value) =>
        var tmp := section + ":" + key;
        errs := d.Set(Str(tmp), Str(value));
      case ErrorLine =>
        errs := errs + 1;
    }
  }

  /** What the loading loop does with a line that was read whole. */
  method TakeLine(d: Dictionary, buf: string, section0: string, errs0: nat, ghost st: Loading)
    returns (line: string, section: string, errs: int)
    requires d.Valid() && st == Loading(st.prefix, section0, errs0, d.Contents())
    modifies d.Repr()
    ensures d.Valid() && fresh(d.Repr() - old(d.Repr())) && errs >= 0
    ensures Loading(line, section, errs, d.Contents()) == Advance(st, buf)
  {
    hide Process, TrimEnd, Entries, Hash;
    line := CutBlanks(buf);
    if line != [] && line[|line| - 1] == '\\' {
      line, section, errs := line[..|line| - 1], section0, errs0;
    } else {
      section, errs := ProcessLine(d, line, section0, errs0);
      line := [];
    }
  }

  /** The loading loop at its end, at a line that is too long, and at any other. */
  lemma LoadRound(st: Loading, file: string, chunk: string, buf: string)
    requires chunk == Fgets(file, ASCIILINESZ - |st.prefix|) && buf == st.prefix + chunk
    ensures chunk == [] ==> LoadFrom(st, file) == if st.errs == 0 then Dict(st.m) else Failed
    ensures chunk != [] && buf[|buf| - 1] != '\n' ==> LoadFrom(st, file) == Failed
    ensures chunk != [] && buf[|buf| - 1] == '\n' ==> LoadFrom(st, file) == LoadFrom(Advance(st, buf), file[|chunk|..])
  {
    hide Advance, Fgets;
  }

  /** iniparser_load, for the contents of a file that can be opened. */
  method Load(file: string) returns (dict: Dictionary?)
    ensures dict == null <==> LoadFile(file) == Failed
    ensures dict != null ==> dict.Valid() && LoadFile(file) == Dict(dict.Contents())
  {
    hide Advance, Fgets, LoadFrom, Entries, Hash;
    var d := new Dictionary(0);
    var inp: string, line: string, section: string, errs := file, [], [], 0;
    ghost var st := Loading([], [], 0, map[]);
    while true
      invariant d.Valid() && fresh(d.Repr()) && 0 <= errs && st == Loading(line, section, errs, d.Contents())
      invariant LoadFrom(st, inp) == LoadFile(file)
      decreases |inp|
    {
      var chunk := Fgets(inp, ASCIILINESZ - |line|);
      var buf := line + chunk;
      LoadRound(st, inp, chunk, buf);
      if chunk == [] {
        break;
      }
      if buf[|buf| - 1] != '\n' {
        return null;
      }
      line, section, errs := TakeLine(d, buf, section, errs, st);
      st := Advance(st, buf);
      inp := inp[|chunk|..];
    }
    dict := if errs != 0 then null else d;
  }

  // ----- iniparser_dump_ini

  /** The slot holds a section name. */
  predicate IsSection(key: CString) {
    key.Str? && ':' !in key.s
  }

  /** The number of sections in the first n slots. */
  function SecCount(keys: seq<CString>, n: nat): nat
    requires n <= |keys|
  {
    if n == 0 then 0 else SecCount(keys, n - 1) + if IsSection(keys[n - 1]) then 1 else 0
  }

  /** strncmp of the key and "section:". */
  predicate Inside(key: CString, section: string) {
    key.Str? && |section| + 1 <= |key.s| && key.s[..|section| + 1] == section + ":"
  }

  /** %-30s */
  function Padded(s: string): (r: string)
    ensures |s| <= |r| && r[..|s|] == s && forall i :: |s| <= i < |r| ==> r[i] == ' '
    ensures |r| == if |s| < 30 then 30 else |s|
  {
    s + seq(if |s| < 30 then 30 - |s| else 0, _ => ' ')
  }

  function Text(val: CString): string {
    if val.Str? then val.s else ""
  }

  function EntryLine(key: CString, val: CString, section: string): string
    requires Inside(key, section)
  {
    Padded(key.s[|section| + 1..]) + " = " + Text(val)
  }

  /** The lines of a section's entries from slot j on. */
  function EntryLines(keys: seq<CString>, vals: seq<CString>, section: string, j: nat): string
    requires j <= |keys| == |vals|
    decreases |keys| - j
  {
    if j == |keys| then ""
    else (if Inside(keys[j], section) then EntryLine(keys[j], vals[j], section) + "\n" else "") +
         EntryLines(keys, vals, section, j + 1)
  }

  /** A section's header line, after an empty line. */
  function SectionHead(name: string): string {
    "\n[" + name + "]\n"
  }

  /** The sections from slot i on. */
  function SectionLines(keys: seq<CString>, vals: seq<CString>, i: nat): string
    requires i <= |keys| == |vals|
    decreases |keys| - i
  {
    if i == |keys| then "\n"
    else (if IsSection(keys[i]) then SectionHead(keys[i].s) + EntryLines(keys, vals, keys[i].s, 0) else "") +
         SectionLines(keys, vals, i + 1)
  }

  /** The entries of a dictionary without sections. A null value prints as the C
      library prints a null string. */
  function PlainLines(keys: seq<CString>, vals: seq<CString>, i: nat): string
    requires i <= |keys| == |vals|
    decreases |keys| - i
  {
    if i == |keys| then ""
    else (if keys[i].Str? then PlainLine(keys[i].s, vals[i]) else "") +
         PlainLines(keys, vals, i + 1)
  }

  function DumpText(keys: seq<CString>, vals: seq<CString>): string
    requires |keys| == |vals|
  {
    if SecCount(keys, |keys|) < 1 then PlainLines(keys, vals, 0) else SectionLines(keys, vals, 0)
  }

  /** iniparser_getnsec */
  method GetNSec(d: Dictionary) returns (nsec: nat)
    requires d.Valid()
    ensures nsec == SecCount(d.key[..], d.size)
  {
    nsec := 0;
    var i := 0;
    while i < d.size
      invariant i <= d.size && nsec == SecCount(d.key[..], i)
    {
      if d.key[i].Str? && ':' !in d.key[i].s {
        nsec := nsec + 1;
      }
      i := i + 1;
    }
  }

  /** iniparser_getsecname: the section with n sections in the slots before it. */
  method GetSecName(d: Dictionary, n: int) returns (name: CString, ghost slot: nat)
    requires d.Valid()
    ensures n < 0 || SecCount(d.key[..], d.size) <= n ==> name == NullStr
    ensures 0 <= n < SecCount(d.key[..], d.size) ==>
      slot < d.size && name == d.key[slot] && IsSection(name) && SecCount(d.key[..], slot) == n
  {
    if n < 0 {
      return NullStr, 0;
    }
    var i, foundsec := 0, 0;
    while i < d.size
      invariant i <= d.size && foundsec == SecCount(d.key[..], i) && foundsec <= n
    {
      if d.key[i].Str? && ':' !in d.key[i].s {
        foundsec := foundsec + 1;
        if foundsec > n {
          CountGrows(d.key[..], i + 1, d.size);
          return d.key[i], i;
        }
      }
      i := i + 1;
    }
    name, slot := NullStr, 0;
  }

  lemma {:induction false} CountGrows(keys: seq<CString>, i: nat, n: nat)
    requires i <= n <= |keys|
    ensures SecCount(keys, i) <= SecCount(keys, n)
  {
    if i < n {
      CountGrows(keys, i, n - 1);
    }
  }

  /** Slots without a section print nothing. */
  lemma {:induction false} NoSections(keys: seq<CString>, vals: seq<CString>, i: nat, k: nat)
    requires i <= k <= |keys| == |vals| && SecCount(keys, i) == SecCount(keys, k)
    ensures SectionLines(keys, vals, i) == SectionLines(keys, vals, k)
    decreases k - i
  {
    if i < k {
      CountGrows(keys, i + 1, k);
      NoSections(keys, vals, i + 1, k);
    }
  }

  method DumpEntries(d: Dictionary, section: string) returns (out: string)
    requires d.Valid()
    ensures out == EntryLines(d.key[..], d.val[..], section, 0)
  {
    hide EntryLine, Inside;
    ghost var keys, vals := d.key[..], d.val[..];
    out := "";
    var j := 0;
    while j < d.size
      invariant j <= d.size && out + EntryLines(keys, vals, section, j) == EntryLines(keys, vals, section, 0)
    {
      var line := "";
      if Inside(d.key[j], section) {
        line := EntryLine(d.key[j], d.val[j], section) + "\n";
      }
      JoinLine(out, line, EntryLines(keys, vals, section, j + 1));
      out := out + line;
      j := j + 1;
    }
  }

  lemma JoinLine(out: string, line: string, rest: string)
    ensures out + (line + rest) == (out + line) + rest && out + ("" + rest) == out + rest
  {
  }

  function PlainLine(key: string, val: CString): string {
    key + " = " + (if val.Str? then val.s else "(null)") + "\n"
  }

  /** The case of iniparser_dump_ini without sections. */
  method DumpPlain(d: Dictionary) returns (out: string)
    requires d.Valid()
    ensures out == PlainLines(d.key[..], d.val[..], 0)
  {
    ghost var keys, vals := d.key[..], d.val[..];
    out := "";
    var i := 0;
    while i < d.size
      invariant i <= d.size && out + PlainLines(keys, vals, i) == PlainLines(keys, vals, 0)
    {
      if d.key[i].Str? {
        JoinLine(out, PlainLine(d.key[i].s, d.val[i]), PlainLines(keys, vals, i + 1));
        out := out + PlainLine(d.key[i].s, d.val[i]);
      }
      i := i + 1;
    }
  }

  /** iniparser_dump_ini */
  method DumpIni(d: Dictionary) returns (out: string)
    requires d.Valid()
    ensures out == DumpText(d.key[..], d.val[..])
  {
    hide SectionHead, EntryLines, PlainLines;
    ghost var keys, vals := d.key[..], d.val[..];
    var nsec := GetNSec(d);
    if nsec < 1 {
      out := DumpPlain(d);
      return;
    }
    out := "";
    var i := 0;
    ghost var next: nat := 0;
    while i < nsec
      invariant i <= nsec && next <= d.size && SecCount(keys, next) == i
      invariant out + SectionLines(keys, vals, next) == SectionLines(keys, vals, 0)
    {
      ghost var slot;
      var secname;
      secname, slot := GetSecName(d, i);
      NextSection(keys, next, slot);
      NoSections(keys, vals, next, slot);
      var entries := DumpEntries(d, secname.s);
      JoinLine(out, SectionHead(secname.s) + entries, SectionLines(keys, vals, slot + 1));
      out := out + (SectionHead(secname.s) + entries);
      i, next := i + 1, slot + 1;
    }
    NoSections(keys, vals, next, d.size);
    out := out + "\n";
  }

  lemma NextSection(keys: seq<CString>, next: nat, slot: nat)
    requires next <= |keys| && slot < |keys| && IsSection(keys[slot]) && SecCount(keys, slot) == SecCount(keys, next)
    ensures next <= slot
  {
    if slot < next {
      CountGrows(keys, slot + 1, next);
    }
  }
}
