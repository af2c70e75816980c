/** The configuration file: one `key:type:value` line per setting, under a comment line. */
module Configuration {
  import opened Bytes
  import opened Text

  datatype Kind = IntKind | StringKind | BoolKind

  function TypeName(k: Kind): (s: string)
    ensures s != "" && ':' !in s && '\n' !in s
  {
    match k
    case IntKind => "int"
    case StringKind => "string"
    case BoolKind => "bool"
  }

  lemma TypeNamesDiffer(a: Kind, b: Kind)
    ensures TypeName(a) == TypeName(b) <==> a == b
  {
    assert |"int"| == 3 && |"string"| == 6 && |"bool"| == 4;
  }

  datatype Setting = Setting(kind: Kind, value: string)

  /** Settings by key; the keys are the numbers of `ConfigKey`. */
  type Settings = map<byte, Setting>

  const KEYS := 8

  function KeyName(key: nat): (s: string)
    ensures '\n' !in s
  {
    match key
    case 0 => "ConfigKey::ROM"
    case 1 => "ConfigKey::LINK_MASTER"
    case 2 => "ConfigKey::SPEED"
    case 3 => "ConfigKey::EMU_MODE"
    case 4 => "ConfigKey::LINK_PORT"
    case 5 => "ConfigKey::LINK_TYPE"
    case 6 => "ConfigKey::LINK_ADDR"
    case 7 => "ConfigKey::LINK_ENABLE"
    case _ => "ConfigKey::UNKNOWN"
  }

  // ---- Printing ----------------------------------------------------------------------------------

  function Digit(key: nat): (c: char)
    requires key < KEYS
    ensures '0' <= c <= '7'
  {
    (key + '0' as int) as char
  }

  /** What `SettingValue::output` writes in front of the value. */
  function Prefix(key: nat, kind: Kind): string
    requires key < KEYS
  {
    ([Digit(key)] + [':']) + (TypeName(kind) + [':'])
  }

  /** The lines of a setting, nothing for a key without one. */
  function EntryAt(m: Settings, key: nat): string
    requires key < KEYS
  {
    if key in m then Entry(key, m[key]) else ""
  }

  function Comment(key: nat): (s: string)
    ensures '\n' !in s && s != "" && s[0] == '#'
  {
    ['#', ' '] + KeyName(key)
  }

  /** The two lines of a setting. */
  function Entry(key: nat, s: Setting): string
    requires key < KEYS
  {
    Comment(key) + ['\n'] + (Prefix(key, s.kind) + s.value + ['\n'])
  }

  /** The text of two of the default settings, and of an empty one. */
  lemma PortEntry()
    ensures Entry(4, Setting(IntKind, "8008")) == "# ConfigKey::LINK_PORT\n4:int:8008\n"
  {
  }

  lemma MasterEntry()
    ensures Entry(1, Setting(BoolKind, "1")) == "# ConfigKey::LINK_MASTER\n1:bool:1\n"
  {
  }

  lemma RomEntry()
    ensures Entry(0, Setting(StringKind, "")) == "# ConfigKey::ROM\n0:string:\n"
  {
  }

  /** A setting key. */
  type Key = k: nat | k < KEYS

  /** The key list. */
  function Keys(): (s: seq<Key>)
    ensures |s| == KEYS && forall i | 0 <= i < KEYS :: s[i] == i
  {
    seq(KEYS, i requires 0 <= i < KEYS => i)
  }

  /** The text of the settings of some keys. */
  function Printed(m: Settings, keys: seq<Key>): string {
    if keys == [] then "" else EntryAt(m, keys[0]) + Printed(m, keys[1..])
  }

  // ---- Parsing -----------------------------------------------------------------------------------

  predicate IsDigit(c: char) {
    '0' <= c <= '9'
  }

  /** The number a run of digits starts with. */
  function Digits(s: string, value: nat): nat {
    if s == "" || !IsDigit(s[0]) then value else Digits(s[1..], 10 * value + (s[0] as int - '0' as int))
  }

  /** `std::stoi`: leading space, a sign, at least one digit; `None` where it throws. */
  function Stoi(s: string): Option<int> {
    var t := TrimLeft(s);
    var negative := t != "" && t[0] == '-';
    var u := if t != "" && (t[0] == '-' || t[0] == '+') then t[1..] else t;
    if u == "" || !IsDigit(u[0]) then None
    else
      var magnitude: int := Digits(u, 0);
      var n := if negative then -magnitude else magnitude;
      if -0x8000_0000 <= n < 0x8000_0000 then Some(n) else None
  }

  function KindOf(name: string): Option<Kind> {
    if name == TypeName(StringKind) then Some(StringKind)
    else if name == TypeName(IntKind) then Some(IntKind)
    else if name == TypeName(BoolKind) then Some(BoolKind)
    else None
  }

  /** The settings after one line, `None` where the key makes `stoi` throw. */
  function ParseLine(m: Settings, line: string): Option<Settings> {
    if line == "" || line[0] == '#' then Some(m)
    else
      var tokens := Split(line, ':');
      if |tokens| < 3 then Some(m) else Store(m, tokens[0], tokens[1], Join(tokens[2..], ':'))
  }

  /** Store the value of a line if its key and its type are known. */
  function Store(m: Settings, key: string, name: string, value: string): Option<Settings> {
    match Stoi(key)
    case None => None
    case Some(n) =>
      match KindOf(name)
      case Some(kind) => Some(if n % 0x100 in m then m[n % 0x100 := Setting(kind, value)] else m)
      case None => Some(m)
  }

  /** The settings after the lines `getline` returns; a last line need not be ended. */
  function Parsed(m: Settings, text: string): Option<Settings>
    decreases |text|
  {
    if text == "" then Some(m)
    else if '\n' !in text then ParseLine(m, text)
    else
      var end := Find(text, '\n');
      match ParseLine(m, text[..end])
      case None => None
      case Some(n) => Parsed(n, text[end + 1..])
  }

  /** What `getline` takes from a text, and what it leaves. */
  function LineOf(text: string): string {
    if '\n' in text then text[..Find(text, '\n')] else text
  }

  function RestOf(text: string): (rest: string)
    ensures text != "" ==> |rest| < |text|
  {
    if '\n' in text then text[Find(text, '\n') + 1..] else ""
  }

  /** The settings as the lines before the first that throws leave them. */
  function Reached(m: Settings, text: string): Settings
    decreases |text|
  {
    if text == "" then m
    else
      match ParseLine(m, LineOf(text))
      case None => m
      case Some(n) => Reached(n, RestOf(text))
  }

  lemma ParsedFirst(m: Settings, text: string)
    requires text != ""
    ensures Parsed(m, text) ==
            match ParseLine(m, LineOf(text)) case None => None case Some(n) => Parsed(n, RestOf(text))
  {
  }

  class Configuration {
    var settings: Settings

    constructor (settings: Settings)
      ensures this.settings == settings
    {
      this.settings := settings;
    }

    /** `parse` on the text of a file; `thrown` where an exception ends it half way. */
    method Parse(text: string) returns (thrown: bool)
      modifies this
      ensures settings == Reached(old(settings), text)
      ensures Parsed(old(settings), text) == if thrown then None else Some(settings)
    {
      var rest := text;
      while rest != ""
        invariant Parsed(settings, rest) == Parsed(old(settings), text)
        invariant Reached(settings, rest) == Reached(old(settings), text)
        decreases |rest|
      {
        ParsedFirst(settings, rest);
        var line := LineOf(rest);
        rest := RestOf(rest);
        var failed := ReadLine(line);
        if failed { return true; }
      }
      return false;
    }

    method ReadLine(line: string) returns (thrown: bool)
      modifies this
      ensures ParseLine(old(settings), line) == if thrown then None else Some(settings)
      ensures thrown ==> settings == old(settings)
    {
      if line == "" || line[0] == '#' { return false; }
      var tokens := SplitString(line, ':');
      if |tokens| < 3 { return false; }
      var value := JoinPieces(tokens[2..], ':');
      var number := Stoi(tokens[0]);
      if number.None? { return true; }
      var key := number.value % 0x100;
      var kind := KindOf(tokens[1]);
      if key !in settings || kind.None? { return false; }
      settings := settings[key := Setting(kind.value, value)];
      return false;
    }

    /** `str`: the settings in the order of the key list. */
    method Print() returns (text: string)
      ensures text == Printed(settings, Keys())
    {
      text := "";
      var keys := Keys();
      assert keys[0..] == keys;
      for i := 0 to |keys|
        invariant text + Printed(settings, keys[i..]) == Printed(settings, keys)
      {
        assert keys[i..][1..] == keys[i + 1..];
        var entry := EntryAt(settings, keys[i]);
        Assoc(text, entry, Printed(settings, keys[i + 1..]));
        text := text + entry;
      }
    }
  }

  // ---- What a line does --------------------------------------------------------------------------

  /** A value that survives the file format. */
  predicate Clean(v: string) {
    '\n' !in v && NoGaps(v, ':') && !EndsInSpace(v)
  }

  lemma PrefixTokens(key: Key, kind: Kind, w: string)
    ensures Split(Prefix(key, kind) + w, ':') == [[Digit(key)], TypeName(kind)] + Tokens(TrimRight(w), ':')
  {
    SplitTwo([Digit(key)], TypeName(kind), w, ':');
  }

  lemma KindOfTypeName(kind: Kind)
    ensures KindOf(TypeName(kind)) == Some(kind)
  {
    TypeNamesDiffer(kind, StringKind);
    TypeNamesDiffer(kind, IntKind);
    TypeNamesDiffer(kind, BoolKind);
  }

  lemma StoiOfDigit(key: Key)
    ensures Stoi([Digit(key)]) == Some(key)
  {
    var s := [Digit(key)];
    assert TrimLeft(s) == s;
    assert s[1..] == "";
    assert Digits(s, 0) == Digits("", key) == key;
  }

  lemma StoreTokens(m: Settings, line: string, digits: string, name: string, rest: seq<string>, key: Key, kind: Kind)
    requires line != "" && line[0] != '#' && Split(line, ':') == [digits, name] + rest && rest != []
    requires Stoi(digits) == Some(key) && KindOf(name) == Some(kind) && key in m
    ensures ParseLine(m, line) == Some(m[key := Setting(kind, Join(rest, ':'))])
  {
    assert ([digits, name] + rest)[2..] == rest;
  }

  /** What comes back of a value without a newline: no space at its end, no leading or doubled colon. */
  function Restored(v: string): string {
    Join(Tokens(TrimRight(v), ':'), ':')
  }

  /** The line of a setting stores its kind and what splitting and joining makes of its value. */
  lemma ParsePrefixedLine(m: Settings, key: Key, kind: Kind, w: string)
    requires key in m
    ensures ParseLine(m, Prefix(key, kind) + w) ==
            Some(m[key := Setting(kind, Restored(w))])
  {
    PrefixTokens(key, kind, w);
    PrefixStart(key, kind, w);
    StoiOfDigit(key);
    KindOfTypeName(kind);
    StoreTokens(m, Prefix(key, kind) + w, [Digit(key)], TypeName(kind), Tokens(TrimRight(w), ':'), key, kind);
  }

  lemma PrefixStart(key: Key, kind: Kind, w: string)
    ensures Prefix(key, kind) + w != "" && (Prefix(key, kind) + w)[0] != '#'
  {
    assert (Prefix(key, kind) + w)[0] == Digit(key);
  }

  lemma CleanIsRestored(v: string)
    requires Clean(v)
    ensures Restored(v) == v
  {
    JoinTokens("", v, ':');
    assert TrimRight(v) == v;
    assert Lead("", ':') + v == v;
  }

  // ---- Lines of a text ---------------------------------------------------------------------------

  lemma FirstLine(m: Settings, line: string, rest: string)
    requires '\n' !in line
    ensures Parsed(m, line + ['\n'] + rest) ==
            match ParseLine(m, line) case None => None case Some(n) => Parsed(n, rest)
  {
    FindAfter(line, rest, '\n');
  }

  predicate Ended(text: string) {
    text == "" || text[|text| - 1] == '\n'
  }

  /** A text of whole lines followed by another text. */
  lemma {:induction false} ParsedConcat(m: Settings, a: string, b: string)
    requires Ended(a)
    ensures Parsed(m, a + b) == match Parsed(m, a) case None => None case Some(n) => Parsed(n, b)
    decreases |a|
  {
    if a == "" {
      assert a + b == b;
    } else {
      var i := Find(a, '\n');
      var front, back := a[..i], a[i + 1..];
      Cut(a, i);
      Assoc(front + ['\n'], back, b);
      FirstLine(m, front, back);
      FirstLine(m, front, back + b);
      match ParseLine(m, front)
      case None =>
      case Some(n) => ParsedConcat(n, back, b);
    }
  }

  // ---- The round trip ----------------------------------------------------------------------------

  lemma ParseComment(m: Settings, key: Key)
    ensures ParseLine(m, Comment(key)) == Some(m)
  {
  }

  /** The comment line of an entry is skipped. */
  lemma EntryStart(m: Settings, key: Key, s: Setting, rest: string)
    ensures Parsed(m, Entry(key, s) + rest) == Parsed(m, Prefix(key, s.kind) + s.value + ['\n'] + rest)
  {
    var line := Prefix(key, s.kind) + s.value + ['\n'];
    Assoc(Comment(key) + ['\n'], line, rest);
    FirstLine(m, Comment(key), line + rest);
    ParseComment(m, key);
  }

  lemma PrefixIsOneLine(key: Key, kind: Kind)
    ensures '\n' !in Prefix(key, kind)
  {
  }

  /** The entry of a value of one line stores what comes back of it. */
  lemma ParseOneLineEntry(m: Settings, key: Key, s: Setting, rest: string)
    requires key in m && '\n' !in s.value
    ensures Parsed(m, Entry(key, s) + rest) == Parsed(m[key := Setting(s.kind, Restored(s.value))], rest)
  {
    EntryStart(m, key, s, rest);
    PrefixIsOneLine(key, s.kind);
    FirstLine(m, Prefix(key, s.kind) + s.value, rest);
    ParsePrefixedLine(m, key, s.kind, s.value);
  }

  lemma ParseCleanEntry(m: Settings, key: Key, s: Setting, rest: string)
    requires key in m && Clean(s.value)
    ensures Parsed(m, Entry(key, s) + rest) == Parsed(m[key := s], rest)
  {
    ParseOneLineEntry(m, key, s, rest);
    CleanIsRestored(s.value);
  }

  /** The settings `m` with those of `n` for some keys. */
  function Overwritten(m: Settings, n: Settings, keys: seq<Key>): Settings
    decreases |keys|
  {
    if keys == [] then m
    else Overwritten(if keys[0] in n then m[keys[0] := n[keys[0]]] else m, n, keys[1..])
  }

  predicate AllClean(m: Settings) {
    forall k | k in m :: Clean(m[k].value)
  }

  predicate AllOneLine(m: Settings) {
    forall k | k in m :: '\n' !in m[k].value
  }

  function AllRestored(m: Settings): (r: Settings)
    ensures r.Keys == m.Keys
  {
    map k | k in m :: Setting(m[k].kind, Restored(m[k].value))
  }

  lemma {:induction false} ParsePrinted(m: Settings, n: Settings, keys: seq<Key>)
    requires AllOneLine(n) && m.Keys == n.Keys
    ensures Parsed(m, Printed(n, keys)) == Some(Overwritten(m, AllRestored(n), keys))
    decreases |keys|
  {
    if keys == [] {
    } else {
      var key, rest := keys[0], Printed(n, keys[1..]);
      if key in n {
        ParseOneLineEntry(m, key, n[key], rest);
        ParsePrinted(m[key := AllRestored(n)[key]], n, keys[1..]);
      } else {
        assert "" + rest == rest;
        ParsePrinted(m, n, keys[1..]);
      }
    }
  }

  lemma {:induction false} OverwrittenAt(m: Settings, n: Settings, keys: seq<Key>, k: byte)
    requires m.Keys == n.Keys && k in n
    ensures Overwritten(m, n, keys).Keys == n.Keys
    ensures Overwritten(m, n, keys)[k] == if k in keys then n[k] else m[k]
    decreases |keys|
  {
    if keys == [] {
    } else {
      OverwrittenAt(if keys[0] in n then m[keys[0] := n[keys[0]]] else m, n, keys[1..], k);
    }
  }

  // ---- Only clean values come back ---------------------------------------------------------------

  lemma LineKeepsClean(m: Settings, line: string, k: byte)
    requires '\n' !in line && k in m && Clean(m[k].value) && ParseLine(m, line).Some?
    ensures var n := ParseLine(m, line).value; n.Keys == m.Keys && Clean(n[k].value)
  {
    if line != "" && line[0] != '#' && |Split(line, ':')| >= 3 {
      JoinedSplit(line, ':', 2, '\n');
    }
  }

  lemma LineKeepsKeys(m: Settings, line: string)
    requires ParseLine(m, line).Some?
    ensures ParseLine(m, line).value.Keys == m.Keys
  {
  }

  lemma {:induction false} ParsedKeepsKeys(m: Settings, text: string)
    requires Parsed(m, text).Some?
    ensures Parsed(m, text).value.Keys == m.Keys
    decreases |text|
  {
    if text == "" {
    } else if '\n' !in text {
      LineKeepsKeys(m, text);
    } else {
      var end := Find(text, '\n');
      LineKeepsKeys(m, text[..end]);
      ParsedKeepsKeys(ParseLine(m, text[..end]).value, text[end + 1..]);
    }
  }

  lemma {:induction false} ParsedKeepsClean(m: Settings, text: string, k: byte)
    requires k in m && Clean(m[k].value) && Parsed(m, text).Some?
    ensures k in Parsed(m, text).value && Clean(Parsed(m, text).value[k].value)
    decreases |text|
  {
    if text == "" {
    } else if '\n' !in text {
      LineKeepsClean(m, text, k);
    } else {
      var end := Find(text, '\n');
      LineKeepsClean(m, text[..end], k);
      ParsedKeepsClean(ParseLine(m, text[..end]).value, text[end + 1..], k);
    }
  }

  lemma Regroup(p: string, w: string, x: string, rest: string)
    ensures p + (w + ['\n'] + x) + ['\n'] + rest == (p + w) + ['\n'] + (x + ['\n'] + rest)
  {
  }

  /** A value's first line, and the whole lines that the rest of it makes. */
  lemma ValueLines(p: string, v: string, rest: string) returns (w: string, junk: string)
    ensures '\n' !in w && Ended(junk) && p + v + ['\n'] + rest == (p + w) + ['\n'] + (junk + rest)
  {
    if '\n' in v {
      var i := Find(v, '\n');
      w, junk := v[..i], v[i + 1..] + ['\n'];
      Cut(v, i);
      Regroup(p, w, v[i + 1..], rest);
    } else {
      w, junk := v, "";
      assert junk + rest == rest;
    }
  }

  lemma JoinedIsClean(w: string)
    requires '\n' !in w
    ensures Clean(Restored(w))
  {
    JoinedTokens("", TrimRight(w), ':', '\n');
  }

  /** Whatever its value is, the first line of an entry stores a clean value under its key; the rest of
      the entry is whole lines. */
  lemma ParseEntry(m: Settings, key: Key, s: Setting, rest: string) returns (stored: Settings, junk: string)
    requires key in m
    ensures stored.Keys == m.Keys && Clean(stored[key].value)
    ensures forall k | k in m && k != key :: stored[k] == m[k]
    ensures Ended(junk) && Parsed(m, Entry(key, s) + rest) == Parsed(stored, junk + rest)
  {
    var p := Prefix(key, s.kind);
    var w;
    w, junk := ValueLines(p, s.value, rest);
    stored := m[key := Setting(s.kind, Restored(w))];
    EntryStart(m, key, s, rest);
    PrefixIsOneLine(key, s.kind);
    FirstLine(m, p + w, junk + rest);
    ParsePrefixedLine(m, key, s.kind, w);
    JoinedIsClean(w);
  }

  lemma {:induction false} PrintedMakesClean(m: Settings, n: Settings, keys: seq<Key>, k: byte)
    requires m.Keys == n.Keys && k in n && (k in keys || Clean(m[k].value))
    requires Parsed(m, Printed(n, keys)).Some?
    ensures var r := Parsed(m, Printed(n, keys)).value; k in r && Clean(r[k].value)
    decreases |keys|
  {
    if keys == [] {
    } else {
      var key, rest := keys[0], Printed(n, keys[1..]);
      if key in n {
        var stored, junk := ParseEntry(m, key, n[key], rest);
        ParsedConcat(stored, junk, rest);
        ParsedKeepsKeys(stored, junk);
        if k == key || Clean(m[k].value) {
          ParsedKeepsClean(stored, junk, k);
        }
        PrintedMakesClean(Parsed(stored, junk).value, n, keys[1..], k);
      } else {
        assert "" + rest == rest;
        PrintedMakesClean(m, n, keys[1..], k);
      }
    }
  }

  lemma AllOverwritten(m: Settings, n: Settings, keys: seq<Key>)
    requires m.Keys == n.Keys && (forall k | k in n :: k in keys)
    ensures Overwritten(m, n, keys) == n
  {
    OverwrittenKeys(m, n, keys);
    forall k | k in n ensures Overwritten(m, n, keys)[k] == n[k] {
      OverwrittenAt(m, n, keys, k);
    }
  }

  /** What parsing the printed text gives in general: the value of each key as splitting and joining
      restore it. Only a newline, which ends the line early, is outside this. */
  lemma WhatComesBack(m: Settings, n: Settings)
    requires m.Keys == n.Keys && (forall k | k in n :: k < KEYS) && AllOneLine(n)
    ensures Parsed(m, Printed(n, Keys())) == Some(AllRestored(n))
  {
    var keys := Keys();
    forall k | k in n ensures k in keys { assert keys[k] == k; }
    ParsePrinted(m, n, keys);
    AllOverwritten(m, AllRestored(n), keys);
  }

  lemma CleanAreRestored(n: Settings)
    requires AllClean(n)
    ensures AllRestored(n) == n
  {
    forall k | k in n ensures AllRestored(n)[k] == n[k] {
      CleanIsRestored(n[k].value);
    }
  }

  /** Parsing the printed text over settings with the same keys restores every type and value exactly
      when each value has no newline, no leading or doubled colon and no space at its end. */
  lemma ConfigurationRoundTrip(m: Settings, n: Settings)
    requires m.Keys == n.Keys && forall k | k in n :: k < KEYS
    ensures Parsed(m, Printed(n, Keys())) == Some(n) <==> AllClean(n)
  {
    var keys := Keys();
    forall k | k in n ensures k in keys { assert keys[k] == k; }
    if AllClean(n) {
      WhatComesBack(m, n);
      CleanAreRestored(n);
    }
    if Parsed(m, Printed(n, keys)) == Some(n) {
      forall k | k in n ensures Clean(n[k].value) {
        PrintedMakesClean(m, n, keys, k);
      }
    }
  }

  lemma JoinOfTwo(a: string, b: string, sep: char)
    requires a != ""
    ensures Join([a, b], sep) == a + [sep] + b
  {
    assert [a, b][1..] == [b];
    assert JoinFrom("" + a, [b], sep) == a + [sep] + b;
  }

  /** Part of a value: printable, without a colon. */
  predicate Plain(a: string) {
    a != "" && ':' !in a && '\n' !in a && !EndsInSpace(a)
  }

  lemma RestoredDoubled(v: string, a: string, b: string)
    requires Plain(a) && Plain(b) && v == a + [':'] + ([':'] + b)
    ensures Restored(v) == a + [':'] + b && '\n' !in v
  {
    assert v[|v| - 1] == b[|b| - 1];
    assert TrimRight(v) == v;
    FirstToken(a, [':'] + b, ':');
    assert Tokens([':'] + b, ':') == [b] by {
      assert ([':'] + b)[0] == ':' && ([':'] + b)[1..] == b;
      assert Find([':'] + b, ':') == 0;
    }
    JoinOfTwo(a, b, ':');
  }

  /** A value that does not come back: of the two colons in a value like `a::b` one is lost. The other
      settings do come back. */
  lemma DoubledColonIsLost(m: Settings, n: Settings, key: byte, a: string, b: string)
    requires m.Keys == n.Keys && (forall k | k in n :: k < KEYS)
    requires key in n && (forall k | k in n && k != key :: Clean(n[k].value))
    requires Plain(a) && Plain(b) && n[key].value == a + [':'] + ([':'] + b)
    ensures Parsed(m, Printed(n, Keys())) == Some(n[key := Setting(n[key].kind, a + [':'] + b)]) != Some(n)
  {
    RestoredDoubled(n[key].value, a, b);
    WhatComesBack(m, n);
    OneIsRestored(n, key, a + [':'] + b);
    assert n[key := Setting(n[key].kind, a + [':'] + b)][key] != n[key];
  }

  lemma OneIsRestored(n: Settings, key: byte, w: string)
    requires key in n && Restored(n[key].value) == w && forall k | k in n && k != key :: Clean(n[k].value)
    ensures AllRestored(n) == n[key := Setting(n[key].kind, w)]
  {
    var r := n[key := Setting(n[key].kind, w)];
    forall k | k in n ensures AllRestored(n)[k] == r[k] {
      if k != key { CleanIsRestored(n[k].value); }
    }
  }

  lemma {:induction false} OverwrittenKeys(m: Settings, n: Settings, keys: seq<Key>)
    requires m.Keys == n.Keys
    ensures Overwritten(m, n, keys).Keys == n.Keys
    decreases |keys|
  {
    if keys == [] {
    } else {
      OverwrittenKeys(if keys[0] in n then m[keys[0] := n[keys[0]]] else m, n, keys[1..]);
    }
  }
}
