/** Env files: lines to key-value pairs with quoting, several files merged in order, and the limits
    on the result (adapters/kube/compose_content.go). */
module EnvFile {
  import opened Text
  import opened Sorting

  type Env = map<string, string>

  datatype EnvError =
    | MissingEquals(line: nat)
    | InvalidKey(key: string, line: nat)
    | UnterminatedDouble(line: nat)
    | UnterminatedSingle(line: nat)
    | DanglingEscape(line: nat)
    | UnsupportedEscape(c: char, line: nat)
    | NotAllowed(refBase: string)
    | FileFailed(path: string)
    | BadSecretKey(key: string)
    | ControlCharacter(key: string)
    | DataTooLarge

  // ---------- keys

  predicate KeyStart(c: char) {
    'A' <= c <= 'Z' || 'a' <= c <= 'z' || c == '_'
  }

  predicate KeyChar(c: char) {
    KeyStart(c) || IsDigit(c)
  }

  /** The pattern of env keys: a letter or underscore, then letters, digits and underscores. */
  predicate EnvKey(s: string) {
    s != "" && KeyStart(s[0]) && forall i :: 0 <= i < |s| ==> KeyChar(s[i])
  }

  /** In ASCII codes: letters and underscores, and behind the first place digits too. */
  lemma EnvKeyExactly(s: string)
    ensures EnvKey(s) <==>
            && s != "" && !(48 <= s[0] as int <= 57)
            && forall i :: 0 <= i < |s| ==>
                 var c := s[i] as int;
                 65 <= c <= 90 || 97 <= c <= 122 || c == 95 || 48 <= c <= 57
  {
  }

  // ---------- double quotes

  function Unescape(c: char): Option<char> {
    match c
    case '\\' => Some('\\')
    case '"' => Some('"')
    case 'n' => Some('\n')
    case 'r' => Some('\r')
    case 't' => Some('\t')
    case _ => None
  }

  function Cons<E>(c: char, rest: Result<string, E>): Result<string, E> {
    match rest
    case Ok(s) => Ok([c] + s)
    case Err(e) => Err(e)
  }

  /** The text between double quotes with its escapes resolved. */
  function Decode(body: string, n: nat): Result<string, EnvError> {
    if body == "" then Ok("")
    else if body[0] != '\\' then Cons(body[0], Decode(body[1..], n))
    else if |body| == 1 then Err(DanglingEscape(n))
    else if Unescape(body[1]).None? then Err(UnsupportedEscape(body[1], n))
    else Cons(Unescape(body[1]).value, Decode(body[2..], n))
  }

  method DecodeQuoted(body: string, n: nat) returns (r: Result<string, EnvError>)
    ensures r == Decode(body, n)
  {
    var out := "";
    var i := 0;
    assert body[0..] == body;
    PrependNothing(Decode(body, n));
    while i < |body|
      invariant 0 <= i <= |body|
      invariant Decode(body, n) == Behind(out, Decode(body[i..], n))
    {
      hide Unescape;
      ghost var rest := body[i..];
      assert rest[1..] == body[i + 1..];
      var ch := body[i];
      if ch == '\\' {
        if i + 1 >= |body| {
          return Err(DanglingEscape(n));
        }
        assert rest[2..] == body[i + 2..];
        var esc := Unescape(body[i + 1]);
        if esc.None? {
          return Err(UnsupportedEscape(body[i + 1], n));
        }
        PrependAppend(out, esc.value, Decode(body[i + 2..], n));
        out := out + [esc.value];
        i := i + 2;
      } else {
        PrependAppend(out, ch, Decode(body[i + 1..], n));
        out := out + [ch];
        i := i + 1;
      }
    }
    assert body[|body|..] == "" && out + "" == out;
    return Ok(out);
  }

  function Behind(out: string, rest: Result<string, EnvError>): Result<string, EnvError> {
    match rest
    case Ok(s) => Ok(out + s)
    case Err(e) => Err(e)
  }

  lemma PrependNothing(rest: Result<string, EnvError>)
    ensures Behind("", rest) == rest
  {
    assert rest.Ok? ==> "" + rest.value == rest.value;
  }

  lemma PrependAppend(out: string, c: char, rest: Result<string, EnvError>)
    ensures Behind(out, Cons(c, rest)) == Behind(out + [c], rest)
  {
    assert rest.Ok? ==> out + ([c] + rest.value) == out + [c] + rest.value;
  }

  function EscapeChar(c: char): string {
    match c
    case '\\' => "\\\\"
    case '"' => "\\\""
    case '\n' => "\\n"
    case '\r' => "\\r"
    case '\t' => "\\t"
    case _ => [c]
  }

  function Escape(v: string): string {
    if v == "" then "" else EscapeChar(v[0]) + Escape(v[1..])
  }

  /** The decoder undoes the escaper on every value. */
  lemma DecodeEscape(v: string, n: nat)
    ensures Decode(Escape(v), n) == Ok(v)
  {
    DecodeThen(v, "", n);
    assert Escape(v) + "" == Escape(v) && v + "" == v;
  }

  /** Behind escaped text the rest is decoded on its own. */
  lemma {:induction false} DecodeThen(v: string, rest: string, n: nat)
    ensures Decode(Escape(v) + rest, n) == Behind(v, Decode(rest, n))
  {
    if v == "" {
      assert Escape(v) + rest == rest;
      PrependNothing(Decode(rest, n));
    } else {
      DecodeThen(v[1..], rest, n);
      var more := Escape(v[1..]) + rest;
      assert Escape(v) + rest == EscapeChar(v[0]) + more && v == [v[0]] + v[1..];
      DecodeFirst(v[0], more, n);
      hide Decode, Escape;
      BehindCons(v[0], v[1..], Decode(rest, n));
    }
  }

  lemma DecodeFirst(c: char, more: string, n: nat)
    ensures Decode(EscapeChar(c) + more, n) == Cons(c, Decode(more, n))
  {
    var e := EscapeChar(c);
    if |e| == 1 {
      assert (e + more)[1..] == more;
    } else {
      assert (e + more)[2..] == more;
    }
  }

  lemma BehindCons(c: char, v: string, rest: Result<string, EnvError>)
    ensures Cons(c, Behind(v, rest)) == Behind([c] + v, rest)
  {
    assert rest.Ok? ==> [c] + (v + rest.value) == [c] + v + rest.value;
  }

  /** The escapes that are refused: any but the five, and none at all behind the backslash. */
  lemma BadEscapes(v: string, c: char, rest: string, n: nat)
    ensures c !in "\\\"nrt" ==> Decode(Escape(v) + ("\\" + [c] + rest), n) == Err(UnsupportedEscape(c, n))
    ensures Decode(Escape(v) + "\\", n) == Err(DanglingEscape(n))
  {
    DecodeThen(v, "\\" + [c] + rest, n);
    DecodeThen(v, "\\", n);
    assert ("\\" + [c] + rest)[1] == c;
  }

  /** Text without a backslash means itself. */
  lemma {:induction false} PlainDecodes(v: string, n: nat)
    requires Free(v, '\\')
    ensures Decode(v, n) == Ok(v)
  {
    if v != "" {
      PlainDecodes(v[1..], n);
      assert v == [v[0]] + v[1..];
    }
  }

  /** An escaped value stays on one line. */
  lemma {:induction false} EscapeOneLine(v: string)
    ensures Free(Escape(v), '\n') && Free(Escape(v), '\r')
  {
    if v != "" {
      EscapeOneLine(v[1..]);
    }
  }

  // ---------- one line

  function AddLine(line: string): Option<string> {
    if line == "" || HasPrefix(line, "#") then None else Some(TrimPrefix(line, "export "))
  }

  /** The value behind the equals sign. */
  function Value(raw: string, n: nat): Result<string, EnvError> {
    if HasPrefix(raw, "\"") then
      if !HasSuffix(raw, "\"") || |raw| < 2 then Err(UnterminatedDouble(n)) else Decode(raw[1..|raw| - 1], n)
    else if HasPrefix(raw, "'") then
      if !HasSuffix(raw, "'") || |raw| < 2 then Err(UnterminatedSingle(n)) else Ok(raw[1..|raw| - 1])
    else Ok(TrimPrefix(raw, " "))
  }

  /** The pair a line holds; blank lines and comments hold none. */
  function ParseLine(line: string, n: nat): Result<Option<(string, string)>, EnvError> {
    match AddLine(line)
    case None => Ok(None)
    case Some(l) =>
      IndexInside(l, '=');
      var i := IndexOf(l, '=');
      if i == |l| then Err(MissingEquals(n))
      else
        var key := TrimSpace(l[..i]);
        if !EnvKey(key) then Err(InvalidKey(key, n))
        else match Value(l[i + 1..], n)
          case Err(e) => Err(e)
          case Ok(v) => Ok(Some((key, v)))
  }

  // ---------- a whole file

  function DropCR(line: string): string {
    TrimSuffix(line, "\r")
  }

  /** bufio.ScanLines: the pieces between line feeds without a trailing carriage return; no empty
      last piece. */
  function Lines(text: string): seq<string> {
    var parts := Split(text, '\n');
    var kept := if parts[|parts| - 1] == "" then parts[..|parts| - 1] else parts;
    seq(|kept|, i requires 0 <= i < |kept| => DropCR(kept[i]))
  }

  function Put(env: Env, pair: Option<(string, string)>): Env {
    match pair
    case None => env
    case Some((k, v)) => env[k := v]
  }

  /** All lines in order, later ones overriding earlier ones; the first bad line fails them all. */
  function ReadLines(lines: seq<string>): Result<Env, EnvError> {
    if lines == [] then Ok(map[])
    else match ReadLines(lines[..|lines| - 1])
      case Err(e) => Err(e)
      case Ok(env) =>
        match ParseLine(lines[|lines| - 1], |lines|)
        case Err(e) => Err(e)
        case Ok(pair) => Ok(Put(env, pair))
  }

  method ReadDotEnv(text: string) returns (r: Result<Env, EnvError>)
    ensures r == ReadLines(Lines(text))
  {
    hide ParseLine, Lines;
    var lines := Lines(text);
    var env: Env := map[];
    for i := 0 to |lines|
      invariant ReadLines(lines[..i]) == Ok(env)
    {
      assert lines[..i + 1][..i] == lines[..i] && lines[..i + 1][i] == lines[i];
      var pair := ReadLine(lines[i], i + 1);
      if pair.Err? {
        FailsOn(lines, i + 1);
        return Err(pair.error);
      }
      env := Put(env, pair.value);
    }
    assert lines[..|lines|] == lines;
    return Ok(env);
  }

  /** One round of the scan loop. */
  method ReadLine(text: string, n: nat) returns (r: Result<Option<(string, string)>, EnvError>)
    ensures r == ParseLine(text, n)
  {
    hide TrimSpace, EnvKey, Decode;
    if text == "" || HasPrefix(text, "#") {
      return Ok(None);
    }
    var line := TrimPrefix(text, "export ");
    var i := IndexOf(line, '=');
    IndexInside(line, '=');
    if i == |line| {
      return Err(MissingEquals(n));
    }
    var key := TrimSpace(line[..i]);
    if !EnvKey(key) {
      return Err(InvalidKey(key, n));
    }
    var raw := line[i + 1..];
    if !(HasPrefix(raw, "\"") || HasPrefix(raw, "'")) {
      return Ok(Some((key, TrimPrefix(raw, " "))));
    }
    if HasPrefix(raw, "\"") {
      if !HasSuffix(raw, "\"") || |raw| < 2 {
        return Err(UnterminatedDouble(n));
      }
      var v := DecodeQuoted(raw[1..|raw| - 1], n);
      return match v case Ok(s) => Ok(Some((key, s))) case Err(e) => Err(e);
    }
    if !HasSuffix(raw, "'") || |raw| < 2 {
      return Err(UnterminatedSingle(n));
    }
    return Ok(Some((key, raw[1..|raw| - 1])));
  }

  /** An error in a prefix is the error of the whole. */
  lemma {:induction false} FailsOn(lines: seq<string>, i: nat)
    requires i <= |lines| && ReadLines(lines[..i]).Err?
    ensures ReadLines(lines) == ReadLines(lines[..i])
    decreases |lines| - i
  {
    hide ParseLine;
    if i < |lines| {
      assert lines[..i + 1][..i] == lines[..i];
      FailsOn(lines, i + 1);
    } else {
      assert lines[..i] == lines;
    }
  }

  // ---------- composing files

  /** Whether a line is good, and the pair it holds, do not depend on its number. */
  lemma NumbersDoNotMatter(line: string, n: nat, m: nat)
    ensures ParseLine(line, n).Ok? <==> ParseLine(line, m).Ok?
    ensures ParseLine(line, n).Ok? ==> ParseLine(line, n) == ParseLine(line, m)
  {
    hide TrimSpace, EnvKey, Decode;
    var l := TrimPrefix(line, "export ");
    IndexInside(l, '=');
    var raw := if IndexOf(l, '=') == |l| then "" else l[IndexOf(l, '=') + 1..];
    if |raw| >= 2 {
      DecodeNumbers(raw[1..|raw| - 1], n, m);
    }
  }

  lemma {:induction false} DecodeNumbers(body: string, n: nat, m: nat)
    ensures Decode(body, n).Ok? <==> Decode(body, m).Ok?
    ensures Decode(body, n).Ok? ==> Decode(body, n) == Decode(body, m)
  {
    if body != "" {
      if body[0] != '\\' {
        DecodeNumbers(body[1..], n, m);
      } else if |body| > 1 {
        DecodeNumbers(body[2..], n, m);
      }
    }
  }

  /** Reading two lists of lines after one another: good exactly when both are, and then the first
      overridden by the second. */
  lemma {:induction false} ReadTogether(a: seq<string>, b: seq<string>)
    ensures ReadLines(a + b).Ok? <==> ReadLines(a).Ok? && ReadLines(b).Ok?
    ensures ReadLines(a + b).Ok? ==> ReadLines(a + b).value == ReadLines(a).value + ReadLines(b).value
  {
    hide ParseLine;
    if b == [] {
      assert a + b == a;
    } else {
      var front, last := b[..|b| - 1], b[|b| - 1];
      assert (a + b)[..|a + b| - 1] == a + front && (a + b)[|a + b| - 1] == last;
      ReadTogether(a, front);
      NumbersDoNotMatter(last, |a + b|, |b|);
    }
  }

  /** The empty last piece that the scanner leaves out holds nothing anyway. */
  lemma LinesOfPieces(text: string)
    ensures ReadLines(Lines(text)) == ReadLines(Pieces(text))
  {
    hide ParseLine;
    var all := Pieces(text);
    var parts := Split(text, '\n');
    if parts[|parts| - 1] == "" {
      assert all[..|all| - 1] == Lines(text) && all[|all| - 1] == "";
      assert ParseLine("", |all|) == Ok(None) by { BlankLine(|all|); }
    } else {
      assert all == Lines(text);
    }
  }

  lemma BlankLine(n: nat)
    ensures ParseLine("", n) == Ok(None)
  {
  }

  function Pieces(text: string): seq<string> {
    var parts := Split(text, '\n');
    seq(|parts|, i requires 0 <= i < |parts| => DropCR(parts[i]))
  }

  /** Main result on composition: two texts joined by a line feed are accepted exactly when both are,
      and mean the first overridden by the second. */
  lemma JoinedTexts(t1: string, t2: string)
    ensures ReadLines(Lines(t1 + ['\n'] + t2)).Ok? <==> ReadLines(Lines(t1)).Ok? && ReadLines(Lines(t2)).Ok?
    ensures ReadLines(Lines(t1 + ['\n'] + t2)).Ok? ==>
              ReadLines(Lines(t1 + ['\n'] + t2)).value == ReadLines(Lines(t1)).value + ReadLines(Lines(t2)).value
  {
    hide ReadLines, Lines, DropCR;
    LinesOfPieces(t1);
    LinesOfPieces(t2);
    LinesOfPieces(t1 + ['\n'] + t2);
    SplitConcat(t1, t2, '\n');
    assert Pieces(t1 + ['\n'] + t2) == Pieces(t1) + Pieces(t2);
    ReadTogether(Pieces(t1), Pieces(t2));
  }

  // ---------- what a line says

  lemma {:induction false} IndexAfter(front: string, back: string, c: char)
    requires Free(front, c)
    ensures IndexOf(front + [c] + back, c) == |front|
  {
    var s := front + [c] + back;
    if front != "" {
      assert s[1..] == front[1..] + [c] + back;
      IndexAfter(front[1..], back, c);
    }
  }

  lemma KeyPlain(key: string)
    requires EnvKey(key)
    ensures && TrimSpace(key) == key
            && Free(key, '=')
            && Free(key, '\n')
            && Free(key, '\r')
            && Free(key, ' ')
            && key[0] != '#'
  {
    assert KeyChar(key[0]) && KeyChar(key[|key| - 1]);
    TrimmedAlready(key);
  }

  /** The three ways to write a value: without quotes one leading blank does not count, between single
      quotes everything stands for itself, between double quotes escapes are resolved. */
  lemma ValueExactly(v: string, n: nat)
    ensures v == "" || (v[0] != '"' && v[0] != '\'') ==>
              Value(v, n) == Ok(if v != "" && v[0] == ' ' then v[1..] else v)
    ensures Value("'" + v + "'", n) == Ok(v)
    ensures Value("\"" + v + "\"", n) == Decode(v, n)
    ensures (v == "" || v[|v| - 1] != '\'') ==> Value("'" + v, n) == Err(UnterminatedSingle(n))
    ensures (v == "" || v[|v| - 1] != '"') ==> Value("\"" + v, n) == Err(UnterminatedDouble(n))
  {
    hide Decode;
    SuffixOfConcat("'" + v, "'");
    SuffixOfConcat("\"" + v, "\"");
    var single, double := "'" + v + "'", "\"" + v + "\"";
    assert single[1..|single| - 1] == v && double[1..|double| - 1] == v;
    OnlyEnd(v, '\'');
    OnlyEnd(v, '"');
  }

  lemma OnlyEnd(v: string, q: char)
    ensures v == "" || v[|v| - 1] != q ==> !HasSuffix([q] + v, [q]) || |[q] + v| < 2
    ensures HasPrefix([q] + v, [q])
  {
    var s := [q] + v;
    assert v != "" ==> s[|s| - 1..] == [v[|v| - 1]];
  }

  function Export(exported: bool): string {
    if exported then "export " else ""
  }

  /** A line gives its key, without spaces around it, the value behind its first equals sign; an export
      in front of it changes nothing. */
  lemma PairLine(a: string, key: string, b: string, raw: string, exported: bool, n: nat)
    requires EnvKey(key) && Spaces(a) && Spaces(b)
    requires exported || !HasPrefix(a + key + b, "export ")
    ensures ParseLine(Export(exported) + (a + key + b + "=" + raw), n) ==
            match Value(raw, n) case Err(e) => Err(e) case Ok(v) => Ok(Some((key, v)))
  {
    hide Value, IndexOf, TrimSpace, HasPrefix;
    var front := a + key + b;
    var rest := front + "=" + raw;
    KeyPlain(key);
    SpacedKey(a, key, b);
    StripExport(front, raw, exported);
    IndexAfter(front, raw, '=');
    assert front + ['='] + raw == rest && rest[..|front|] == front && rest[|front| + 1..] == raw;
    TrimsSpaces(a, key, b);
  }

  lemma SpacedKey(a: string, key: string, b: string)
    requires EnvKey(key) && Spaces(a) && Spaces(b)
    ensures Free(a + key + b, '=') && (a + key + b)[0] != '#' && Trimmed(key)
  {
    assert KeyChar(key[0]) && KeyChar(key[|key| - 1]);
    var front := a + key + b;
    forall i | 0 <= i < |front| ensures front[i] != '=' {
      assert front[i] == if i < |a| then a[i] else if i < |a| + |key| then key[i - |a|] else b[i - |a| - |key|];
    }
    assert front[0] == if a != "" then a[0] else key[0];
  }

  lemma StripExport(front: string, raw: string, exported: bool)
    requires Free(front, '=') && front != "" && front[0] != '#' && (exported || !HasPrefix(front, "export "))
    ensures AddLine(Export(exported) + (front + "=" + raw)) == Some(front + "=" + raw)
  {
    var rest := front + "=" + raw;
    var line := Export(exported) + rest;
    if exported {
      assert line[0] == 'e' && line[|"export "|..] == rest && line[..7] == "export ";
      assert !HasPrefix(line, "#") by { assert "#"[0] != line[0]; }
    } else {
      assert line == rest && line[0] == front[0];
      assert !HasPrefix(line, "#");
      assert !HasPrefix(line, "export ") by {
        EqualsInside(front, raw);
      }
    }
  }

  /** A line that begins with the word does so in front of its first equals sign. */
  lemma EqualsInside(front: string, raw: string)
    requires Free(front, '=') && !HasPrefix(front, "export ")
    ensures !HasPrefix(front + "=" + raw, "export ")
  {
    var rest := front + "=" + raw;
    assert rest[|front|] == '=';
    if |front| < 7 {
      assert "export "[|front|] != '=';
    } else {
      assert rest[..7] == front[..7];
    }
  }

  /** Lines that hold no pair: empty ones and comments; and lines that are refused: without an equals
      sign, or with something that is no key in front of it. */
  lemma OtherLines(line: string, n: nat)
    ensures ParseLine("", n) == Ok(None) && ParseLine("#" + line, n) == Ok(None)
    ensures Free(line, '=') && line != "" && line[0] != '#' ==> ParseLine(line, n) == Err(MissingEquals(n))
    ensures Free(line, '=') && !HasPrefix(line, "#") && !HasPrefix(line, "export ") && !EnvKey(TrimSpace(line)) ==>
              forall raw :: ParseLine(line + "=" + raw, n) == Err(InvalidKey(TrimSpace(line), n))
  {
    hide TrimSpace, EnvKey;
    if Free(line, '=') {
      NoEquals(line);
      NoEquals(TrimPrefix(line, "export "));
      forall raw | !HasPrefix(line, "#") && !HasPrefix(line, "export ") && !EnvKey(TrimSpace(line))
        ensures ParseLine(line + "=" + raw, n) == Err(InvalidKey(TrimSpace(line), n))
      {
        var all := line + "=" + raw;
        IndexAfter(line, raw, '=');
        EqualsInside(line, raw);
        assert line + ['='] + raw == all && all[..|line|] == line;
        assert !HasPrefix(all, "#") by {
          assert line != "" ==> all[0] == line[0];
        }
      }
    }
  }

  lemma {:induction false} NoEquals(line: string)
    requires Free(line, '=')
    ensures IndexOf(line, '=') == |line|
  {
    if line != "" {
      NoEquals(line[1..]);
    }
  }

  // ---------- writing and reading back

  datatype Quoting = DoubleQuoted | SingleQuoted | Unquoted

  datatype Item =
    | Pair(key: string, value: string, quoting: Quoting, exported: bool)
    | Comment(text: string)
    | Empty

  function Quote(value: string, quoting: Quoting): string {
    match quoting
    case DoubleQuoted => "\"" + Escape(value) + "\""
    case SingleQuoted => "'" + value + "'"
    case Unquoted => if HasPrefix(value, " ") then " " + value else value
  }

  function PrintLine(item: Item): string {
    match item
    case Pair(key, value, quoting, exported) => Export(exported) + (key + "=" + Quote(value, quoting))
    case Comment(text) => "#" + text
    case Empty => ""
  }

  /** Single quotes do not hide the end of a line; without quotes a value may also not look quoted. */
  predicate Printable(item: Item) {
    match item
    case Pair(key, value, DoubleQuoted, _) => EnvKey(key)
    case Pair(key, value, SingleQuoted, _) => EnvKey(key) && Free(value, '\n')
    case Pair(key, value, Unquoted, _) =>
      && EnvKey(key) && Free(value, '\n') && !HasSuffix(value, "\r")
      && !HasPrefix(value, "\"") && !HasPrefix(value, "'")
    case Comment(text) => Free(text, '\n')
    case Empty => true
  }

  /** One line per item, ended by a line feed or by a carriage return and a line feed. */
  function Print(items: seq<(Item, bool)>): string {
    if items == [] then ""
    else PrintLine(items[0].0) + (if items[0].1 then "\r" else "") + ['\n'] + Print(items[1..])
  }

  function PairOf(item: Item): Option<(string, string)> {
    if item.Pair? then Some((item.key, item.value)) else None
  }

  /** The pairs put one after the other into a map. */
  function Collect(items: seq<(Item, bool)>): Env {
    if items == [] then map[]
    else (if items[0].0.Pair? then map[items[0].0.key := items[0].0.value] else map[]) + Collect(items[1..])
  }

  /** A printed line is read back as its pair. */
  lemma PrintedLine(item: Item, n: nat)
    requires Printable(item)
    ensures ParseLine(PrintLine(item), n) == Ok(PairOf(item))
  {
    hide ParseLine, Value, Decode, Escape, TrimSpace, EnvKey;
    match item
    case Comment(text) => OtherLines(text, n);
    case Empty => OtherLines("", n);
    case Pair(key, value, quoting, exported) =>
      KeyPlain(key);
      NoExport(key);
      PairLine("", key, "", Quote(value, quoting), exported, n);
      assert "" + key + "" == key;
      QuotedValue(value, quoting, n);
  }

  lemma NoExport(key: string)
    requires Free(key, ' ')
    ensures !HasPrefix(key, "export ")
  {
    assert "export "[6] == ' ';
  }

  lemma QuotedValue(value: string, quoting: Quoting, n: nat)
    requires quoting.Unquoted? ==> !HasPrefix(value, "\"") && !HasPrefix(value, "'")
    ensures Value(Quote(value, quoting), n) == Ok(value)
  {
    hide Value, Decode, Escape;
    match quoting
    case DoubleQuoted =>
      ValueExactly(Escape(value), n);
      DecodeEscape(value, n);
    case SingleQuoted => ValueExactly(value, n);
    case Unquoted =>
      ValueExactly(Quote(value, quoting), n);
      NotQuoted(value);
  }

  lemma NotQuoted(value: string)
    requires !HasPrefix(value, "\"") && !HasPrefix(value, "'")
    ensures var raw := Quote(value, Unquoted);
            && (raw == "" || (raw[0] != '"' && raw[0] != '\''))
            && (if raw != "" && raw[0] == ' ' then raw[1..] else raw) == value
  {
    if value != "" {
      assert value[..1] == [value[0]];
      assert (" " + value)[1..] == value;
    }
  }

  lemma PrintedOneLine(item: Item, cr: bool)
    requires Printable(item)
    ensures var line := PrintLine(item) + (if cr then "\r" else "");
            Free(line, '\n') && (DropCR(line) == PrintLine(item) || (item.Comment? && HasPrefix(DropCR(line), "#")))
  {
    hide PrintLine, Printable;
    PrintedFree(item);
    var text := PrintLine(item);
    if cr {
      SuffixOfConcat(text, "\r");
    } else {
      assert text + "" == text;
      if !item.Comment? {
        LastKept(item);
      } else {
        CommentKept(item);
      }
    }
  }

  lemma PrintedFree(item: Item)
    requires Printable(item)
    ensures Free(PrintLine(item), '\n')
  {
    hide Escape, TrimSpace, EnvKey;
    if item.Pair? {
      KeyPlain(item.key);
      EscapeOneLine(item.value);
      var raw := Quote(item.value, item.quoting);
      assert Free(raw, '\n') && Free(Export(item.exported), '\n');
    }
  }

  lemma CommentKept(item: Item)
    requires item.Comment?
    ensures HasPrefix(DropCR(PrintLine(item)), "#")
  {
    var text := PrintLine(item);
    assert text[0] == '#';
    if HasSuffix(text, "\r") {
      assert text[|text| - 1..][0] == '\r' && |text| > 1;
      assert text[..|text| - 1][..1] == "#";
    }
  }

  lemma LastKept(item: Item)
    requires Printable(item) && !item.Comment?
    ensures !HasSuffix(PrintLine(item), "\r")
  {
    hide Escape, EnvKey, TrimSpace;
    if item.Pair? {
      var text, raw := PrintLine(item), Quote(item.value, item.quoting);
      assert text[|text| - 1..] == [text[|text| - 1]];
      assert text[|text| - 1] == if raw == "" then '=' else raw[|raw| - 1];
      if item.quoting.Unquoted? && item.value != "" {
        assert item.value[|item.value| - 1..] == [item.value[|item.value| - 1]];
      }
    }
  }

  /** Main result on round trips: whatever list of pairs with valid keys is printed, each in one of the
      three quotings, exported or not, between comments and empty lines and with either line end, it
      is read back as the map those pairs make. */
  lemma {:induction false} ReadPrinted(items: seq<(Item, bool)>)
    requires forall i :: 0 <= i < |items| ==> Printable(items[i].0)
    ensures ReadLines(Lines(Print(items))) == Ok(Collect(items))
  {
    hide ParseLine, PrintLine, Printable, DropCR;
    if items == [] {
      assert Split("", '\n') == [""] && Lines("") == [];
    } else {
      var line := PrintLine(items[0].0) + (if items[0].1 then "\r" else "");
      ReadPrinted(items[1..]);
      JoinedTexts(line, Print(items[1..]));
      OneLine(items[0].0, items[0].1);
    }
  }

  lemma OneLine(item: Item, cr: bool)
    requires Printable(item)
    ensures ReadLines(Lines(PrintLine(item) + (if cr then "\r" else ""))) ==
            Ok(if item.Pair? then map[item.key := item.value] else map[])
  {
    hide ParseLine, Printable, DropCR, PrintLine;
    var line := PrintLine(item) + (if cr then "\r" else "");
    PrintedOneLine(item, cr);
    SplitOfFree(line, '\n');
    LinesOfPieces(line);
    assert Pieces(line) == [DropCR(line)];
    PrintedLine(item, 1);
    if DropCR(line) != PrintLine(item) {
      OtherLines(DropCR(line)[1..], 1);
      assert "#" + DropCR(line)[1..] == DropCR(line);
    }
    assert [DropCR(line)][..0] == [] && ReadLines([]) == Ok(map[]);
  }

  // ---------- merging files

  function MergeAll(envs: seq<Env>): Env {
    if envs == [] then map[] else MergeAll(envs[..|envs| - 1]) + envs[|envs| - 1]
  }

  /** Env i changes the value key k has after the envs before it. */
  predicate Changes(envs: seq<Env>, i: nat, k: string)
    requires i < |envs|
  {
    k in envs[i] && k in MergeAll(envs[..i]) && MergeAll(envs[..i])[k] != envs[i][k]
  }

  /** The overrides hold the value each changed key had before its last change, and nothing else. */
  ghost predicate LastChanges(envs: seq<Env>, overrides: Env) {
    && (forall k :: k in overrides <==> exists i :: 0 <= i < |envs| && Changes(envs, i, k))
    && (forall i, k ::
          0 <= i < |envs| && Changes(envs, i, k) && (forall j :: i < j < |envs| ==> !Changes(envs, j, k)) ==>
          k in overrides && overrides[k] == MergeAll(envs[..i])[k])
  }

  /** The merge is right-biased: a key has the value of the last env that has it. */
  lemma {:induction false} MergedIsLast(envs: seq<Env>, k: string)
    ensures k in MergeAll(envs) <==> exists i :: 0 <= i < |envs| && k in envs[i]
    ensures forall i :: 0 <= i < |envs| && k in envs[i] && (forall j :: i < j < |envs| ==> k !in envs[j]) ==>
              k in MergeAll(envs) && MergeAll(envs)[k] == envs[i][k]
  {
    if envs != [] {
      var front, last := envs[..|envs| - 1], envs[|envs| - 1];
      assert envs == front + [last];
      MergedIsLast(front, k);
      forall i | 0 <= i < |envs| && k in envs[i] && (forall j :: i < j < |envs| ==> k !in envs[j])
        ensures k in MergeAll(envs) && MergeAll(envs)[k] == envs[i][k]
      {
        if i < |front| {
          assert front[i] == envs[i] && forall j :: i < j < |front| ==> front[j] == envs[j];
        }
      }
    }
  }

  lemma NoChanges()
    ensures LastChanges([], map[])
  {
  }

  function Overridden(merged: Env, env: Env): Env {
    map k | k in env && k in merged && merged[k] != env[k] :: merged[k]
  }

  /** One more env: its changes are the last ones. */
  lemma OneMoreEnv(envs: seq<Env>, overrides: Env, env: Env)
    requires LastChanges(envs, overrides)
    ensures LastChanges(envs + [env], overrides + Overridden(MergeAll(envs), env))
  {
    var all := envs + [env];
    var next := overrides + Overridden(MergeAll(envs), env);
    forall i, k | 0 <= i < |all| { ChangesInMore(envs, env, i, k); }
    hide MergeAll, Changes, Overridden;
    forall k ensures k in next <==> exists i :: 0 <= i < |all| && Changes(all, i, k) {
      if k in next && k !in Overridden(MergeAll(envs), env) {
        var i :| 0 <= i < |envs| && Changes(envs, i, k);
        assert Changes(all, i, k);
      }
      if k in Overridden(MergeAll(envs), env) {
        assert Changes(all, |envs|, k);
      }
    }
    forall i, k | 0 <= i < |all| && Changes(all, i, k) && (forall j :: i < j < |all| ==> !Changes(all, j, k))
      ensures k in next && next[k] == MergeAll(all[..i])[k]
    {
      OverriddenValue(MergeAll(envs), env, k);
      if i < |envs| {
        assert !Changes(all, |envs|, k) && Changes(envs, i, k);
        LastOfAll(envs, env, i, k);
      }
    }
  }

  lemma LastOfAll(envs: seq<Env>, env: Env, i: nat, k: string)
    requires i < |envs| && forall j :: i < j < |envs| + 1 ==> !Changes(envs + [env], j, k)
    ensures forall j :: i < j < |envs| ==> !Changes(envs, j, k)
  {
    forall j | i < j < |envs| ensures !Changes(envs, j, k) {
      ChangesInMore(envs, env, j, k);
    }
  }

  /** With one more env the earlier changes are what they were, and its own are what it overrides. */
  lemma ChangesInMore(envs: seq<Env>, env: Env, i: nat, k: string)
    requires i <= |envs|
    ensures (envs + [env])[..i] == envs[..i]
    ensures Changes(envs + [env], i, k) <==>
            if i < |envs| then Changes(envs, i, k) else k in Overridden(MergeAll(envs), env)
  {
    hide MergeAll;
    assert (envs + [env])[..i] == envs[..i];
  }

  lemma OverriddenValue(merged: Env, env: Env, k: string)
    ensures k in Overridden(merged, env) ==> k in merged && Overridden(merged, env)[k] == merged[k]
  {
  }

  /** One file put into the merge, key by key in whatever order the map yields them. */
  method MergeOne(merged: Env, overrides: Env, env: Env) returns (m: Env, o: Env)
    ensures m == merged + env && o == overrides + Overridden(merged, env)
  {
    hide Overridden;
    m, o := merged, overrides;
    var visit := Enumerate(env);
    NothingMerged(merged, overrides, env, visit[..0]);
    for i := 0 to |visit|
      invariant m == merged + Only(env, Elements(visit[..i]))
      invariant o == overrides + Overridden(merged, Only(env, Elements(visit[..i])))
    {
      hide Only;
      var k := visit[i];
      assert k in Elements(visit);
      VisitOneMore(visit, i);
      MergeKey(merged, overrides, env, Elements(visit[..i]), k);
      if k in m && m[k] != env[k] {
        o := o[k := m[k]];
      }
      m := m[k := env[k]];
    }
    assert visit[..|visit|] == visit;
    assert Only(env, env.Keys) == env;
  }

  function Only(env: Env, keys: set<string>): Env {
    map k | k in env && k in keys :: env[k]
  }

  lemma NothingMerged(merged: Env, overrides: Env, env: Env, none: seq<string>)
    requires none == []
    ensures merged == merged + Only(env, Elements(none))
    ensures overrides == overrides + Overridden(merged, Only(env, Elements(none)))
  {
  }

  lemma MergeKey(merged: Env, overrides: Env, env: Env, done: set<string>, k: string)
    requires k in env && k !in done
    ensures var m := merged + Only(env, done);
            var o := overrides + Overridden(merged, Only(env, done));
            && m[k := env[k]] == merged + Only(env, done + {k})
            && (if k in m && m[k] != env[k] then o[k := m[k]] else o) ==
                 overrides + Overridden(merged, Only(env, done + {k}))
  {
    OneMoreKey(env, done, k);
    hide Only;
    var some := Only(env, done);
    var m := merged + some;
    OverriddenMore(merged, some, k, env[k]);
    hide Overridden;
    assert k in m <==> k in merged;
    assert k in m ==> m[k] == merged[k];
  }

  lemma OneMoreKey(env: Env, done: set<string>, k: string)
    requires k in env && k !in done
    ensures Only(env, done + {k}) == Only(env, done)[k := env[k]] && k !in Only(env, done)
  {
  }

  lemma OverriddenMore(merged: Env, some: Env, k: string, v: string)
    requires k !in some
    ensures Overridden(merged, some[k := v]) ==
            if k in merged && merged[k] != v then Overridden(merged, some)[k := merged[k]]
            else Overridden(merged, some)
  {
  }

  datatype EnvRef = EnvRef(path: string, required: bool)
  type Reader = (string, bool) -> Result<Env, EnvError>

  /** The envs of the files with a path, in order. */
  function ReadAll(read: Reader, refs: seq<EnvRef>): Result<seq<Env>, EnvError> {
    if refs == [] then Ok([])
    else match ReadAll(read, refs[..|refs| - 1])
      case Err(e) => Err(e)
      case Ok(envs) =>
        var ref := refs[|refs| - 1];
        if TrimSpace(ref.path) == "" then Ok(envs)
        else match read(TrimSpace(ref.path), ref.required)
          case Err(e) => Err(e)
          case Ok(env) => Ok(envs + [env])
  }

  lemma {:induction false} ReadAllFails(read: Reader, refs: seq<EnvRef>, i: nat)
    requires i <= |refs| && ReadAll(read, refs[..i]).Err?
    ensures ReadAll(read, refs) == ReadAll(read, refs[..i])
    decreases |refs| - i
  {
    hide TrimSpace;
    if i < |refs| {
      assert refs[..i + 1][..i] == refs[..i];
      ReadAllFails(read, refs, i + 1);
    } else {
      assert refs[..i] == refs;
    }
  }

  /** The file is read and has the key. */
  predicate FileHas(read: Reader, ref: EnvRef, k: string) {
    TrimSpace(ref.path) != "" && read(TrimSpace(ref.path), ref.required).Ok?
    && k in read(TrimSpace(ref.path), ref.required).value
  }

  function FileSays(read: Reader, ref: EnvRef, k: string): string
    requires FileHas(read, ref, k)
  {
    read(TrimSpace(ref.path), ref.required).value[k]
  }

  /** The merge is defined exactly when all files with a path can be read. */
  lemma {:induction false} FilesRead(read: Reader, refs: seq<EnvRef>)
    ensures ReadAll(read, refs).Ok? <==>
            forall i :: 0 <= i < |refs| && TrimSpace(refs[i].path) != "" ==>
              read(TrimSpace(refs[i].path), refs[i].required).Ok?
  {
    hide TrimSpace;
    if refs != [] {
      var front, last := refs[..|refs| - 1], refs[|refs| - 1];
      assert refs == front + [last];
      FilesRead(read, front);
    }
  }

  /** One file more: its keys are set, the others stay; a blank path adds nothing. */
  lemma OneMoreFile(read: Reader, refs: seq<EnvRef>, k: string)
    requires refs != [] && ReadAll(read, refs).Ok?
    ensures ReadAll(read, refs[..|refs| - 1]).Ok?
    ensures var m := MergeAll(ReadAll(read, refs[..|refs| - 1]).value);
            var n := MergeAll(ReadAll(read, refs).value);
            && (k in n <==> k in m || FileHas(read, refs[|refs| - 1], k))
            && (k in n ==>
                  n[k] == if FileHas(read, refs[|refs| - 1], k) then FileSays(read, refs[|refs| - 1], k) else m[k])
  {
    hide TrimSpace;
    var last := refs[|refs| - 1];
    var envs := ReadAll(read, refs[..|refs| - 1]).value;
    if TrimSpace(last.path) != "" {
      var env := read(TrimSpace(last.path), last.required).value;
      assert (envs + [env])[..|envs|] == envs;
    }
  }

  /** A key is in the merge exactly when a file has it, with the value of the last such file. */
  lemma {:induction false} MergedFiles(read: Reader, refs: seq<EnvRef>, k: string)
    requires ReadAll(read, refs).Ok?
    ensures k in MergeAll(ReadAll(read, refs).value) <==> exists i :: 0 <= i < |refs| && FileHas(read, refs[i], k)
    ensures forall i ::
              0 <= i < |refs| && FileHas(read, refs[i], k)
              && (forall j :: i < j < |refs| ==> !FileHas(read, refs[j], k)) ==>
                && k in MergeAll(ReadAll(read, refs).value)
                && MergeAll(ReadAll(read, refs).value)[k] == FileSays(read, refs[i], k)
  {
    hide TrimSpace, FileHas, FileSays;
    if refs != [] {
      var front, last := refs[..|refs| - 1], refs[|refs| - 1];
      assert refs == front + [last];
      OneMoreFile(read, refs, k);
      MergedFiles(read, front, k);
      hide ReadAll, MergeAll;
      forall i | 0 <= i < |refs| && FileHas(read, refs[i], k)
        && (forall j :: i < j < |refs| ==> !FileHas(read, refs[j], k))
        ensures k in MergeAll(ReadAll(read, refs).value)
        ensures MergeAll(ReadAll(read, refs).value)[k] == FileSays(read, refs[i], k)
      {
        if i < |front| {
          assert !FileHas(read, refs[|front|], k);
          assert front[i] == refs[i] && forall j :: i < j < |front| ==> front[j] == refs[j];
        }
      }
    } else {
      assert ReadAll(read, []) == Ok([]) && MergeAll([]) == map[];
    }
  }

  /** Env files can be merged: file access is allowed, every file is good and the result is within
      the limits. */
  ghost predicate Accepted(read: Reader, refs: seq<EnvRef>, refBase: string) {
    HasPrefix(refBase, "file://") && ReadAll(read, refs).Ok? && SecretDataOk(MergeAll(ReadAll(read, refs).value))
  }

  /** mergeEnvFiles, with file reading as a parameter: the right-biased merge of all files, with the
      value before the last change of every changed key, within the limits on secrets. */
  method MergeEnvFiles(read: Reader, refs: seq<EnvRef>, refBase: string) returns (r: Result<(Env, Env), EnvError>)
    ensures !HasPrefix(refBase, "file://") ==> r == if refs == [] then Ok((map[], map[])) else Err(NotAllowed(refBase))
    ensures refs != [] ==> (r.Ok? <==> Accepted(read, refs, refBase))
    ensures HasPrefix(refBase, "file://") ==>
              && (r.Ok? <==> Accepted(read, refs, refBase))
              && (r.Ok? ==>
                    && r.value.0 == MergeAll(ReadAll(read, refs).value)
                    && LastChanges(ReadAll(read, refs).value, r.value.1))
  {
    hide TrimSpace, LastChanges, Overridden, SecretDataOk;
    if !HasPrefix(refBase, "file://") {
      if |refs| > 0 {
        return Err(NotAllowed(refBase));
      }
      return Ok((map[], map[]));
    }
    var merged, overrides: Env := map[], map[];
    ghost var envs: seq<Env> := [];
    NoChanges();
    for i := 0 to |refs|
      invariant ReadAll(read, refs[..i]) == Ok(envs)
      invariant merged == MergeAll(envs) && LastChanges(envs, overrides)
    {
      assert refs[..i + 1][..i] == refs[..i] && refs[..i + 1][i] == refs[i];
      var f := TrimSpace(refs[i].path);
      if f == "" {
        continue;
      }
      var env := read(f, refs[i].required);
      if env.Err? {
        ReadAllFails(read, refs, i + 1);
        return Err(env.error);
      }
      OneMoreEnv(envs, overrides, env.value);
      assert (envs + [env.value])[..|envs|] == envs;
      merged, overrides := MergeOne(merged, overrides, env.value);
      envs := envs + [env.value];
    }
    assert refs[..|refs|] == refs;
    var fault := ValidateSecretData(merged);
    if fault.Some? {
      return Err(fault.value);
    }
    return Ok((merged, overrides));
  }

  // ---------- the limits on secrets

  /** The control characters rejectControl refuses; tab, line feed and carriage return pass. */
  predicate Control(c: char) {
    || '\0' <= c <= '\U{0008}' || c == '\U{000B}' || c == '\U{000C}'
    || '\U{000E}' <= c <= '\U{001F}' || c == '\U{007F}'
  }

  /** In code points: everything below 32 but 9, 10 and 13, and 127. */
  lemma ControlExactly(c: char)
    ensures Control(c) <==> (c as int < 32 && c as int !in {9, 10, 13}) || c as int == 127
  {
  }

  predicate ControlFree(v: string) {
    forall i :: 0 <= i < |v| ==> !Control(v[i])
  }

  const MAX_SECRET_SIZE: nat := 1_000_000

  /** The size of all keys and values. */
  ghost function Size(m: Env): nat {
    if m == map[] then 0
    else |Pick(m)| + |m[Pick(m)]| + Size(m - {Pick(m)})
  }

  ghost function Pick(m: Env): (k: string)
    requires m != map[]
    ensures k in m
  {
    var k :| k in m;
    k
  }

  /** The size does not depend on which entry is taken out first. */
  lemma {:induction false} SizeWithout(m: Env, k: string)
    requires k in m
    ensures Size(m) == |k| + |m[k]| + Size(m - {k})
    decreases |m|
  {
    assert m != map[];
    var j := Pick(m);
    if j != k {
      SizeWithout(m - {j}, k);
      SizeWithout(m - {k}, j);
      assert m - {j} - {k} == m - {k} - {j};
    }
  }

  ghost predicate SecretDataOk(m: Env) {
    (forall k :: k in m ==> EnvKey(k) && ControlFree(m[k])) && Size(m) <= MAX_SECRET_SIZE
  }

  lemma {:induction false} SizeOfPart(m: Env, done: set<string>)
    requires done <= m.Keys
    ensures Size(map k | k in done :: m[k]) <= Size(m)
    decreases |m.Keys - done|
  {
    var part := map k | k in done :: m[k];
    if m.Keys <= done {
      assert part == m;
    } else {
      var k :| k in m.Keys && k !in done;
      var more := map j | j in done + {k} :: m[j];
      SizeWithout(more, k);
      assert more - {k} == part;
      SizeOfPart(m, done + {k});
    }
  }

  /** Which entry is reported depends on the map's order; whether one is does not. */
  method ValidateSecretData(m: Env) returns (fault: Option<EnvError>)
    ensures fault.None? <==> SecretDataOk(m)
  {
    hide EnvKey, ControlFree, Size;
    var visit := Enumerate(m);
    var total := 0;
    EmptySize();
    assert (map k | k in Elements(visit[..0]) && k in m :: m[k]) == map[];
    for i := 0 to |visit|
      invariant forall k :: k in Elements(visit[..i]) ==> k in m && EnvKey(k) && ControlFree(m[k])
      invariant total <= MAX_SECRET_SIZE
      invariant total == Size(map k | k in Elements(visit[..i]) && k in m :: m[k])
    {
      var k := visit[i];
      assert k in Elements(visit);
      VisitOneMore(visit, i);
      if !EnvKey(k) {
        return Some(BadSecretKey(k));
      }
      if !ControlFree(m[k]) {
        return Some(ControlCharacter(k));
      }
      AddEntry(m, Elements(visit[..i]), k);
      total := total + |k| + |m[k]|;
      if total > MAX_SECRET_SIZE {
        SizeOfPart(m, Elements(visit[..i + 1]));
        ghost var done := Elements(visit[..i + 1]);
        assert (map j | j in done :: m[j]) == map j | j in done && j in m :: m[j];
        return Some(DataTooLarge);
      }
    }
    assert visit[..|visit|] == visit;
    assert (map k | k in Elements(visit) && k in m :: m[k]) == m;
    return None;
  }

  lemma EmptySize()
    ensures Size(map[]) == 0
  {
  }

  lemma AddEntry(m: Env, done: set<string>, k: string)
    requires k in m && k !in done
    ensures Size(map j | j in done + {k} && j in m :: m[j]) == Size(map j | j in done && j in m :: m[j]) + |k| + |m[k]|
  {
    var more := map j | j in done + {k} && j in m :: m[j];
    SizeWithout(more, k);
    assert more - {k} == map j | j in done && j in m :: m[j];
  }
}
