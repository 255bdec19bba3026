/** The text of .config files: escaping, the lines that are written for symbols and the
    patterns that lines are matched with when they are read back. */
module ConfigText {
  import opened Wrappers
  import opened Numbers
  import opened Expressions

  // String literals

  /** s.replace(c, r), for a single character. */
  function ReplaceChar(s: string, c: char, r: string): string {
    if s == [] then [] else (if s[0] == c then r else [s[0]]) + ReplaceChar(s[1..], c, r)
  }

  function Escape(s: string): string {
    ReplaceChar(ReplaceChar(s, '\\', "\\\\"), '\"', "\\\"")
  }

  /** re.sub(r"\\(.)", r"\1", s); '.' matches everything but a newline. */
  function Unescape(s: string): string {
    if s == [] then []
    else if s[0] == '\\' && |s| > 1 && s[1] != '\n' then [s[1]] + Unescape(s[2..])
    else [s[0]] + Unescape(s[1..])
  }

  /** The language of the regular expression (?:[^\\"]|\\.)* */
  predicate Body(s: string) {
    s == []
    || (s[0] != '\\' && s[0] != '\"' && Body(s[1..]))
    || (s[0] == '\\' && |s| > 1 && s[1] != '\n' && Body(s[2..]))
  }

  /** Does the pattern "((?:[^\\"]|\\.)*)" match at the start of 's', capturing 'body'? */
  ghost predicate Matches(s: string, body: string) {
    Body(body) && ("\"" + body + "\"") <= s
  }

  /** The longest start of 's' that is a run of complete pattern items, as a length. */
  function BodyLength(s: string): (n: nat)
    ensures n <= |s| && Body(s[..n])
  {
    if s == [] || s[0] == '\"' then 0
    else if s[0] != '\\' then
      var n := BodyLength(s[1..]);
      assert s[..n + 1][1..] == s[1..][..n];
      n + 1
    else if |s| > 1 && s[1] != '\n' then
      var n := BodyLength(s[2..]);
      assert s[..n + 2][2..] == s[2..][..n];
      n + 2
    else 0
  }

  /** _conf_string_match(): the captured group, if there is a match. */
  function ConfStringMatch(s: string): Option<string> {
    if s == [] || s[0] != '\"' then None else
    var n := BodyLength(s[1..]);
    if n < |s| - 1 && s[1 + n] == '\"' then Some(s[1..1 + n]) else None
  }

  lemma {:induction false} BodyLengthIs(body: string, rest: string)
    requires Body(body) && rest != [] && rest[0] == '\"'
    ensures BodyLength(body + rest) == |body|
  {
    if body != [] {
      var n := if body[0] == '\\' then 2 else 1;
      assert (body + rest)[n..] == body[n..] + rest;
      BodyLengthIs(body[n..], rest);
    } else {
      assert body + rest == rest;
    }
  }

  /** The scanner finds the match if and only if there is one, and there is only one:
      backtracking cannot make the pattern capture anything else. */
  lemma ConfStringMatchIsExact(s: string, body: string)
    ensures ConfStringMatch(s) == Some(body) <==> Matches(s, body)
  {
    if Matches(s, body) {
      var rest := s[1 + |body|..];
      assert s[1..] == body + rest;
      assert s[1 + |body|] == ("\"" + body + "\"")[1 + |body|];
      BodyLengthIs(body, rest);
      assert s[1..1 + |body|] == body;
    }
    if ConfStringMatch(s) == Some(body) {
      var n := BodyLength(s[1..]);
      assert s[1..][..n] == s[1..1 + n] == body;
      assert "\"" + body + "\"" == s[..2 + n];
    }
  }

  /** Unescaping drops the backslash before each character other than a newline, and nothing else. */
  lemma UnescapeIs(c: char, rest: string)
    ensures c != '\n' ==> Unescape(['\\', c] + rest) == [c] + Unescape(rest)
    ensures c != '\\' ==> Unescape([c] + rest) == [c] + Unescape(rest)
    ensures Unescape("\\") == "\\" && Unescape("") == ""
    ensures Unescape("\\\n" + rest) == "\\" + Unescape("\n" + rest)
  {
    assert (['\\', c] + rest)[2..] == rest && ([c] + rest)[1..] == rest;
    assert ("\\\n" + rest)[1..] == "\n" + rest;
    assert "\\"[1..] == "";
  }

  lemma {:induction false} ReplaceSkips(s: string, c: char, r: string)
    requires c !in s
    ensures ReplaceChar(s, c, r) == s
  {
    if s == [] {
    } else {
      ReplaceSkips(s[1..], c, r);
    }
  }

  lemma {:induction false} ReplaceConcat(a: string, b: string, c: char, r: string)
    ensures ReplaceChar(a + b, c, r) == ReplaceChar(a, c, r) + ReplaceChar(b, c, r)
  {
    if a == [] {
      assert a + b == b;
    } else {
      assert (a + b)[1..] == a[1..] + b;
      ReplaceConcat(a[1..], b, c, r);
    }
  }

  /** Escaping works character by character. */
  function EscapeChar(c: char): string {
    if c == '\\' then "\\\\" else if c == '\"' then "\\\"" else [c]
  }

  lemma EscapeCons(s: string)
    requires s != []
    ensures Escape(s) == EscapeChar(s[0]) + Escape(s[1..])
  {
    var first := if s[0] == '\\' then "\\\\" else [s[0]];
    ReplaceConcat(first, ReplaceChar(s[1..], '\\', "\\\\"), '\"', "\\\"");
    if s[0] == '\\' {
      ReplaceSkips("\\\\", '\"', "\\\"");
    } else {
      assert ReplaceChar([s[0]], '\"', "\\\"") == EscapeChar(s[0]) + ReplaceChar([], '\"', "\\\"");
    }
  }

  lemma {:induction false} EscapeIsBody(s: string)
    ensures Body(Escape(s)) && Unescape(Escape(s)) == s
    ensures '\n' !in s ==> '\n' !in Escape(s)
  {
    if s == [] {
    } else {
      EscapeCons(s);
      EscapeIsBody(s[1..]);
      var e := Escape(s);
      assert e[|EscapeChar(s[0])|..] == Escape(s[1..]);
    }
  }

  /** Every string survives being written as a literal and read back. */
  lemma StringLiteralRoundTrip(s: string)
    ensures ConfStringMatch("\"" + Escape(s) + "\"") == Some(Escape(s))
    ensures Unescape(Escape(s)) == s
  {
    EscapeIsBody(s);
    ConfStringMatchIsExact("\"" + Escape(s) + "\"", Escape(s));
  }

  // Lines

  const PREFIX := "CONFIG_"
  const UNSET := " is not set"

  /** The position of the first 'c' in 's', or |s|. */
  function Find(s: string, c: char): (i: nat)
    ensures i <= |s| && (i < |s| ==> s[i] == c)
    ensures forall j :: 0 <= j < i ==> s[j] != c
  {
    if s == [] || s[0] == c then 0 else 1 + Find(s[1..], c)
  }

  lemma {:induction false} FindIs(a: string, b: string, c: char)
    requires c !in a && b != [] && b[0] == c
    ensures Find(a + b, c) == |a|
  {
    if a == [] {
      assert a + b == b;
    } else {
      assert (a + b)[1..] == a[1..] + b;
      FindIs(a[1..], b, c);
    }
  }

  /** The pattern CONFIG_([^=]+)=(.*) */
  function SetMatch(line: string): Option<(string, string)> {
    if !(PREFIX <= line) then None else
    var rest := line[|PREFIX|..];
    var i := Find(rest, '=');
    if i == 0 || i == |rest| then None else Some((rest[..i], rest[i + 1..]))
  }

  /** The pattern # CONFIG_([^ ]+) is not set */
  function UnsetMatch(line: string): Option<string> {
    if !("# " + PREFIX <= line) then None else
    var rest := line[|"# " + PREFIX|..];
    var i := Find(rest, ' ');
    if i == 0 || !(UNSET <= rest[i..]) then None else Some(rest[..i])
  }

  datatype Line = Assign(name: string, val: string) | Unset(name: string) | Other

  /** How _load_config() classifies a line. */
  function ReadLine(raw: string): Line {
    var line := RStrip(raw);
    var a := SetMatch(line);
    if a.Some? then Assign(a.value.0, a.value.1) else
    var b := UnsetMatch(line);
    if b.Some? then Unset(b.value) else Other
  }

  /** A name that survives being written to a line. */
  predicate NameOk(name: string) {
    name != [] && '=' !in name && ' ' !in name
  }

  /** Symbols have distinct names that survive. */
  predicate NamesOk(syms: seq<Symbol>) {
    && (forall s :: 0 <= s < |syms| ==> NameOk(syms[s].name))
    && (forall s, t :: 0 <= s < t < |syms| ==> syms[s].name != syms[t].name)
  }

  function AssignLine(name: string, val: string): string {
    PREFIX + name + "=" + val
  }

  function UnsetLine(name: string): string {
    "# " + PREFIX + name + UNSET
  }

  lemma SetMatchOf(name: string, val: string)
    requires name != [] && '=' !in name
    ensures SetMatch(AssignLine(name, val)) == Some((name, val))
  {
    var line := AssignLine(name, val);
    assert line == PREFIX + (name + ("=" + val));
    assert line[|PREFIX|..] == name + ("=" + val);
    FindIs(name, "=" + val, '=');
    assert (name + ("=" + val))[..|name|] == name;
    assert (name + ("=" + val))[|name| + 1..] == val;
  }

  /** The patterns match exactly the lines of their form. */
  lemma SetMatchIsExact(line: string, name: string, val: string)
    ensures SetMatch(line) == Some((name, val)) <==> line == AssignLine(name, val) && name != [] && '=' !in name
  {
    if line == AssignLine(name, val) && name != [] && '=' !in name { SetMatchOf(name, val); }
    if SetMatch(line) == Some((name, val)) {
      var rest := line[|PREFIX|..];
      assert rest == name + "=" + val && line == PREFIX + rest;
    }
  }

  lemma UnsetMatchOf(name: string, more: string)
    requires name != [] && ' ' !in name
    ensures UnsetMatch(UnsetLine(name) + more) == Some(name)
  {
    var line, start, tail := UnsetLine(name) + more, "# " + PREFIX, UNSET + more;
    assert line == start + (name + tail);
    assert line[|start|..] == name + tail;
    FindIs(name, tail, ' ');
    assert (name + tail)[..|name|] == name && (name + tail)[|name|..] == tail;
  }

  lemma StartsWith(start: string, s: string)
    requires start <= s
    ensures s == start + s[|start|..]
  {
  }

  lemma UnsetMatchGives(line: string, name: string)
    requires UnsetMatch(line) == Some(name)
    ensures UnsetLine(name) <= line && name != [] && ' ' !in name
  {
    var start := "# " + PREFIX;
    var rest := line[|start|..];
    StartsWith(start, line);
    StartsWith(name, rest);
    StartsWith(UNSET, rest[|name|..]);
    assert UnsetLine(name) == start + (name + UNSET);
    assert line == start + (name + (UNSET + rest[|name|..][|UNSET|..]));
  }

  lemma UnsetMatchIsExact(line: string, name: string)
    ensures UnsetMatch(line) == Some(name) <==> UnsetLine(name) <= line && name != [] && ' ' !in name
  {
    hide UnsetMatch, UnsetLine;
    if UnsetLine(name) <= line && name != [] && ' ' !in name {
      StartsWith(UnsetLine(name), line);
      UnsetMatchOf(name, line[|UnsetLine(name)|..]);
    }
    if UnsetMatch(line) == Some(name) { UnsetMatchGives(line, name); }
  }

  lemma AssignLineRead(name: string, val: string)
    requires NameOk(name) && (val == [] || !IsSpace(val[|val| - 1]))
    ensures ReadLine(AssignLine(name, val)) == Assign(name, val)
  {
    hide SetMatch, UnsetMatch;
    var line := AssignLine(name, val);
    assert line[|line| - 1] == if val == [] then '=' else val[|val| - 1];
    SetMatchOf(name, val);
  }

  lemma UnsetLineRead(name: string)
    requires NameOk(name)
    ensures ReadLine(UnsetLine(name)) == Unset(name)
  {
    hide UnsetMatch;
    var line := UnsetLine(name);
    assert line[|line| - 1] == UNSET[|UNSET| - 1];
    assert line + [] == line;
    UnsetMatchOf(name, []);
    assert line[0] == '#';
  }

  /** The symbol with the given name, if it is defined. */
  function FindSym(syms: seq<Symbol>, name: string): (r: Option<nat>)
    ensures r.Some? ==> r.value < |syms| && syms[r.value].name == name
    ensures r.None? ==> forall s :: 0 <= s < |syms| ==> syms[s].name != name
  {
    if syms == [] then None
    else if syms[|syms| - 1].name == name then Some(|syms| - 1)
    else FindSym(syms[..|syms| - 1], name)
  }

  lemma {:induction false} FindSymIs(syms: seq<Symbol>, s: nat)
    requires s < |syms| && forall i, j :: 0 <= i < j < |syms| ==> syms[i].name != syms[j].name
    ensures FindSym(syms, syms[s].name) == Some(s)
  {
    if s == |syms| - 1 {
    } else {
      FindSymIs(syms[..|syms| - 1], s);
    }
  }

  /** Symbol.config_string for a symbol that is written out, without the newline. */
  function ConfigString(d: Symbol, val: string): string {
    if d.ty.Logic() then
      if val != "n" then AssignLine(d.name, val) else UnsetLine(d.name)
    else if d.ty.Int? || d.ty.Hex? then AssignLine(d.name, val)
    else AssignLine(d.name, "\"" + Escape(val) + "\"")
  }
}
