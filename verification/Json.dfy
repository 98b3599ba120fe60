/** JSON values, how they are printed without white space, and how they are read back (RFC 8259, sections 4, 5 and 7). */
module Json {
  import opened Basics

  /** Numbers are kept as the characters they are written with. */
  datatype Value =
    | Null
    | Bool(b: bool)
    | Number(digits: string)
    | String(s: string)
    | Array(items: seq<Value>)
    | Object(members: seq<Member>)

  datatype Member = Member(name: string, value: Value)

  // ---------------------------------------------------------------- printing

  const HEX: string := "0123456789abcdef"

  function Control(c: char): string
    requires c as int < 0x20
  {
    "\\u00" + [HEX[c as int / 16], HEX[c as int % 16]]
  }

  function EscapeChar(c: char): string {
    if c == '"' then "\\\""
    else if c == '\\' then "\\\\"
    else if c as int == 8 then "\\b"
    else if c as int == 12 then "\\f"
    else if c == '\n' then "\\n"
    else if c == '\r' then "\\r"
    else if c == '\t' then "\\t"
    else if c as int < 0x20 then Control(c)
    else [c]
  }

  function Escape(s: string): string {
    if s == "" then "" else EscapeChar(s[0]) + Escape(s[1..])
  }

  function Print(v: Value): string
    decreases v, 0
  {
    match v
    case Null => "null"
    case Bool(b) => if b then "true" else "false"
    case Number(digits) => digits
    case String(s) => "\"" + Escape(s) + "\""
    case Array(items) => "[" + PrintItems(items) + "]"
    case Object(members) => "{" + PrintMembers(members) + "}"
  }

  function PrintItems(items: seq<Value>): string
    decreases items, 1
  {
    if items == [] then ""
    else Print(items[0]) + if |items| == 1 then "" else "," + PrintItems(items[1..])
  }

  function PrintMember(m: Member): string
    decreases m, 1
  {
    "\"" + Escape(m.name) + "\":" + Print(m.value)
  }

  function PrintMembers(members: seq<Member>): string
    decreases members, 2
  {
    if members == [] then ""
    else PrintMember(members[0]) + if |members| == 1 then "" else "," + PrintMembers(members[1..])
  }

  // ---------------------------------------------------------------- reading

  predicate NumberChar(c: char) {
    '0' <= c <= '9' || c == '-' || c == '+' || c == '.' || c == 'e' || c == 'E'
  }

  function NumberLength(s: string): (n: nat)
    ensures n <= |s|
  {
    if s == "" || !NumberChar(s[0]) then 0 else 1 + NumberLength(s[1..])
  }

  function HexDigit(c: char): Option<nat> {
    if '0' <= c <= '9' then Some(c as int - '0' as int)
    else if 'a' <= c <= 'f' then Some(c as int - 'a' as int + 10)
    else if 'A' <= c <= 'F' then Some(c as int - 'A' as int + 10)
    else None
  }

  /** The value of four hexadecimal digits, if it is the code of a character by itself. */
  function ReadHex(s: string): Option<char>
    requires |s| >= 4
  {
    var a, b, c, d := HexDigit(s[0]), HexDigit(s[1]), HexDigit(s[2]), HexDigit(s[3]);
    if a.Some? && b.Some? && c.Some? && d.Some? then
      var code := ((a.value * 16 + b.value) * 16 + c.value) * 16 + d.value;
      if code < 0xD800 || 0xE000 <= code < 0x10000 then Some(code as char) else None
    else None
  }

  /** One character of a string, and what comes after it. */
  function ReadChar(s: string): (r: Option<(char, string)>)
    requires s != ""
    ensures r.Some? ==> |r.value.1| < |s|
  {
    if s[0] != '\\' then (if s[0] == '"' || s[0] as int < 0x20 then None else Some((s[0], s[1..])))
    else if |s| < 2 then None
    else
      match s[1]
      case '"' => Some(('"', s[2..]))
      case '\\' => Some(('\\', s[2..]))
      case '/' => Some(('/', s[2..]))
      case 'b' => Some((8 as char, s[2..]))
      case 'f' => Some((12 as char, s[2..]))
      case 'n' => Some(('\n', s[2..]))
      case 'r' => Some(('\r', s[2..]))
      case 't' => Some(('\t', s[2..]))
      case 'u' =>
        if |s| < 6 then None
        else
          var c := ReadHex(s[2..6]);
          if c.Some? then Some((c.value, s[6..])) else None
      case _ => None
  }

  /** The rest of a string, up to and including the closing quote. */
  function ReadString(s: string): (r: Option<(string, string)>)
    ensures r.Some? ==> |r.value.1| < |s|
    decreases |s|
  {
    if s == "" then None
    else if s[0] == '"' then Some(("", s[1..]))
    else
      var c := ReadChar(s);
      if c.None? then None
      else
        var rest := ReadString(c.value.1);
        if rest.None? then None else Some(([c.value.0] + rest.value.0, rest.value.1))
  }

  /** A value at the beginning of `s`, and what comes after it. */
  function Parse(s: string): (r: Option<(Value, string)>)
    ensures r.Some? ==> |r.value.1| < |s|
    decreases |s|, 0
  {
    if "null" <= s then Some((Null, s[4..]))
    else if "true" <= s then Some((Bool(true), s[4..]))
    else if "false" <= s then Some((Bool(false), s[5..]))
    else if s == "" then None
    else if NumberChar(s[0]) then Some((Number(s[..NumberLength(s)]), s[NumberLength(s)..]))
    else if s[0] == '"' then
      var r := ReadString(s[1..]);
      if r.None? then None else Some((String(r.value.0), r.value.1))
    else if "[]" <= s then Some((Array([]), s[2..]))
    else if s[0] == '[' then
      var r := ParseItems(s[1..]);
      if r.None? then None else Some((Array(r.value.0), r.value.1))
    else if "{}" <= s then Some((Object([]), s[2..]))
    else if s[0] == '{' then
      var r := ParseMembers(s[1..]);
      if r.None? then None else Some((Object(r.value.0), r.value.1))
    else None
  }

  /** One or more values, separated by commas, and the closing bracket. */
  function ParseItems(s: string): (r: Option<(seq<Value>, string)>)
    ensures r.Some? ==> |r.value.1| < |s|
    decreases |s|, 1
  {
    var v := Parse(s);
    if v.None? || v.value.1 == "" then None
    else if v.value.1[0] == ']' then Some(([v.value.0], v.value.1[1..]))
    else if v.value.1[0] == ',' then
      var r := ParseItems(v.value.1[1..]);
      if r.None? then None else Some(([v.value.0] + r.value.0, r.value.1))
    else None
  }

  function ParseMember(s: string): (r: Option<(Member, string)>)
    ensures r.Some? ==> |r.value.1| < |s|
    decreases |s|, 1
  {
    if s == "" || s[0] != '"' then None
    else
      var name := ReadString(s[1..]);
      if name.None? || name.value.1 == "" || name.value.1[0] != ':' then None
      else
        var v := Parse(name.value.1[1..]);
        if v.None? then None else Some((Member(name.value.0, v.value.0), v.value.1))
  }

  /** One or more members, separated by commas, and the closing brace. */
  function ParseMembers(s: string): (r: Option<(seq<Member>, string)>)
    ensures r.Some? ==> |r.value.1| < |s|
    decreases |s|, 2
  {
    var m := ParseMember(s);
    if m.None? || m.value.1 == "" then None
    else if m.value.1[0] == '}' then Some(([m.value.0], m.value.1[1..]))
    else if m.value.1[0] == ',' then
      var r := ParseMembers(m.value.1[1..]);
      if r.None? then None else Some(([m.value.0] + r.value.0, r.value.1))
    else None
  }

  // ---------------------------------------------------------------- reading back what was printed

  /** Numbers consist of the characters that numbers are written with. */
  ghost predicate Printable(v: Value) {
    match v
    case Number(digits) => digits != "" && forall i :: 0 <= i < |digits| ==> NumberChar(digits[i])
    case Array(items) => forall i :: 0 <= i < |items| ==> Printable(items[i])
    case Object(members) => forall i :: 0 <= i < |members| ==> Printable(members[i].value)
    case _ => true
  }

  /** The notation: literal names, brackets, braces, commas and colons (RFC 8259, section 2). */
  lemma Notation(v: Value, w: Value)
    ensures Print(Null) == "null" && Print(Bool(true)) == "true" && Print(Bool(false)) == "false"
    ensures Print(Array([])) == "[]" && Print(Array([v, w])) == "[" + (Print(v) + ("," + Print(w))) + "]"
    ensures Print(Object([])) == "{}"
    ensures var a, b := Member("a", v), Member("b", w);
            Print(Object([a, b])) == "{" + (PrintMember(a) + ("," + PrintMember(b))) + "}"
    ensures PrintMember(Member("a", v)) == "\"a\":" + Print(v)
  {
    TwoPrinted(v, w, Member("a", v), Member("b", w));
    MemberPrinted(v);
    hide PrintItems, PrintMembers, PrintMember;
    assert PrintItems([]) == "" && PrintMembers([]) == "" by {
      NonePrinted();
    }
  }

  lemma NonePrinted()
    ensures PrintItems([]) == "" && PrintMembers([]) == ""
  {
  }

  lemma TwoPrinted(v: Value, w: Value, m: Member, n: Member)
    ensures PrintItems([v, w]) == Print(v) + ("," + Print(w))
    ensures PrintMembers([m, n]) == PrintMember(m) + ("," + PrintMember(n))
  {
    hide Print, PrintMember;
    assert [v, w][1..] == [w] && [m, n][1..] == [n];
    assert PrintItems([w]) == Print(w) && PrintMembers([n]) == PrintMember(n);
  }

  lemma MemberPrinted(v: Value)
    ensures PrintMember(Member("a", v)) == "\"a\":" + Print(v)
  {
    LetterIsPlain('a');
    hide Print, Escape;
    assert "\"" + "a" + "\":" == "\"a\":";
  }

  lemma LetterIsPlain(c: char)
    requires 'a' <= c <= 'z'
    ensures Escape([c]) == [c]
  {
    assert [c][1..] == "";
  }

  /** The escapes (section 7): two characters for these seven, six for other controls, none for the rest. */
  lemma Escapes(c: char)
    ensures EscapeChar('\"') == ['\\', '\"'] && EscapeChar('\\') == ['\\', '\\']
    ensures EscapeChar('\n') == ['\\', 'n'] && EscapeChar('\r') == ['\\', 'r'] && EscapeChar('\t') == ['\\', 't']
    ensures EscapeChar(8 as char) == ['\\', 'b'] && EscapeChar(12 as char) == ['\\', 'f']
    ensures EscapeChar(1 as char) == ['\\', 'u', '0', '0', '0', '1'] && EscapeChar(31 as char) == ['\\', 'u', '0', '0', '1', 'f']
    ensures c as int >= 0x20 && c != '\"' && c != '\\' ==> EscapeChar(c) == [c]
  {
  }

  /** Every character survives escaping. */
  lemma ReadEscapedChar(c: char, rest: string)
    ensures EscapeChar(c) != "" && EscapeChar(c)[0] != '"'
    ensures ReadChar(EscapeChar(c) + rest) == Some((c, rest))
  {
    var s := EscapeChar(c) + rest;
    assert s[|EscapeChar(c)|..] == rest;
    if |EscapeChar(c)| == 6 {
      assert s[2..6] == EscapeChar(c)[2..6];
      ReadControl(c);
    }
  }

  lemma ReadControl(c: char)
    requires c as int < 0x20
    ensures |Control(c)| == 6 && ReadHex(Control(c)[2..6]) == Some(c)
  {
    var h, l := c as int / 16, c as int % 16;
    HexIsRead(h);
    HexIsRead(l);
    assert Control(c)[2..6] == ['0', '0', HEX[h], HEX[l]];
  }

  lemma HexIsRead(n: nat)
    requires n < 16
    ensures HexDigit(HEX[n]) == Some(n)
  {
  }

  lemma ReadStep(s: string, c: char, tail: string)
    requires s != "" && s[0] != '"' && ReadChar(s) == Some((c, tail)) && ReadString(tail).Some?
    ensures var r := ReadString(tail).value; ReadString(s) == Some(([c] + r.0, r.1))
  {
    hide ReadChar;
  }

  lemma EscapeJoin(first: string, others: string, rest: string)
    ensures (first + others) + "\"" + rest == first + (others + "\"" + rest)
    ensures first != "" ==> (first + (others + "\"" + rest))[0] == first[0]
  {
  }

  /** Unescaping undoes escaping. */
  lemma {:induction false} ReadEscaped(s: string, rest: string)
    ensures ReadString(Escape(s) + "\"" + rest) == Some((s, rest))
  {
    hide EscapeChar, ReadChar;
    if s == "" {
      assert Escape(s) + "\"" + rest == "\"" + rest;
      assert ("\"" + rest)[1..] == rest;
    } else {
      var tail := Escape(s[1..]) + "\"" + rest;
      ReadEscaped(s[1..], rest);
      ReadEscapedChar(s[0], tail);
      EscapeJoin(EscapeChar(s[0]), Escape(s[1..]), rest);
      assert [s[0]] + s[1..] == s;
      hide ReadString;
      ReadStep(EscapeChar(s[0]) + tail, s[0], tail);
    }
  }

  lemma {:induction false} NumberIsRead(digits: string, rest: string)
    requires forall i :: 0 <= i < |digits| ==> NumberChar(digits[i])
    requires rest == "" || !NumberChar(rest[0])
    ensures NumberLength(digits + rest) == |digits|
  {
    if digits == "" {
      assert digits + rest == rest;
    } else {
      NumberIsRead(digits[1..], rest);
      assert (digits + rest)[1..] == digits[1..] + rest;
    }
  }

  /** A value is recognised by its first character. */
  lemma FirstCharacter(v: Value)
    requires Printable(v)
    ensures Print(v) != ""
    ensures match v
            case Null => Print(v)[0] == 'n'
            case Bool(b) => Print(v)[0] == if b then 't' else 'f'
            case Number(_) => NumberChar(Print(v)[0])
            case String(_) => Print(v)[0] == '"'
            case Array(_) => Print(v)[0] == '['
            case Object(_) => Print(v)[0] == '{'
  {
  }

  lemma NoWord(s: string)
    requires s != "" && s[0] != 'n' && s[0] != 't' && s[0] != 'f'
    ensures !("null" <= s) && !("true" <= s) && !("false" <= s)
  {
  }

  lemma Brackets(s: string)
    requires s != ""
    ensures "[]" <= s <==> s[0] == '[' && s[1..] != "" && s[1..][0] == ']'
    ensures "{}" <= s <==> s[0] == '{' && s[1..] != "" && s[1..][0] == '}'
    ensures s[1..] != "" ==> s[2..] == s[1..][1..]
  {
  }

  /** How the reader proceeds from the first character of a number, */
  lemma ParseNumber(s: string)
    requires s != "" && NumberChar(s[0])
    ensures Parse(s) == Some((Number(s[..NumberLength(s)]), s[NumberLength(s)..]))
  {
    hide NumberLength;
    NoWord(s);
  }

  /** of a string, */
  lemma ParseString(s: string)
    requires s != "" && s[0] == '"' && ReadString(s[1..]).Some?
    ensures var r := ReadString(s[1..]).value; Parse(s) == Some((String(r.0), r.1))
  {
    hide NumberLength, ReadString;
    NoWord(s);
  }

  /** of an array, */
  lemma ParseArray(s: string)
    requires s != "" && s[0] == '[' && s[1..] != ""
    ensures s[1..][0] == ']' ==> Parse(s) == Some((Array([]), s[1..][1..]))
    ensures s[1..][0] != ']' && ParseItems(s[1..]).Some? ==>
      var r := ParseItems(s[1..]).value; Parse(s) == Some((Array(r.0), r.1))
  {
    hide NumberLength, ReadString, ParseItems, ParseMembers;
    NoWord(s);
    Brackets(s);
  }

  /** and of an object. */
  lemma ParseObject(s: string)
    requires s != "" && s[0] == '{' && s[1..] != ""
    ensures s[1..][0] == '}' ==> Parse(s) == Some((Object([]), s[1..][1..]))
    ensures s[1..][0] != '}' && ParseMembers(s[1..]).Some? ==>
      var r := ParseMembers(s[1..]).value; Parse(s) == Some((Object(r.0), r.1))
  {
    hide NumberLength, ReadString, ParseItems, ParseMembers;
    NoWord(s);
    Brackets(s);
  }

  lemma Concat(a: string, b: string, c: string)
    ensures (a + b) + c == a + (b + c)
    ensures (a + b)[..|a|] == a && (a + b)[|a|..] == b
  {
  }

  lemma ReadPrintedNumber(digits: string, rest: string)
    requires Printable(Number(digits)) && (rest == "" || !NumberChar(rest[0]))
    ensures Parse(digits + rest) == Some((Number(digits), rest))
  {
    NumberIsRead(digits, rest);
    hide Parse, NumberLength;
    Concat(digits, rest, "");
    ParseNumber(digits + rest);
  }

  lemma ReadPrintedNull(rest: string)
    ensures Parse("null" + rest) == Some((Null, rest))
  {
    Concat("null", rest, "");
  }

  lemma ReadPrintedBool(b: bool, rest: string)
    ensures Parse((if b then "true" else "false") + rest) == Some((Bool(b), rest))
  {
    Concat(if b then "true" else "false", rest, "");
    if b {
      assert ("true" + rest)[0] == 't';
    } else {
      assert ("false" + rest)[0] == 'f';
    }
  }

  lemma ReadPrintedString(t: string, rest: string)
    ensures Parse("\"" + Escape(t) + "\"" + rest) == Some((String(t), rest))
  {
    hide Parse, ReadString, Escape;
    var tail := Escape(t) + "\"" + rest;
    var s := "\"" + Escape(t) + "\"" + rest;
    ReadEscaped(t, rest);
    assert s == "\"" + tail && s[1..] == tail;
    ParseString(s);
  }

  /** Reading a printed value gives it back, and leaves what follows it. */
  lemma {:induction false} ReadPrinted(v: Value, rest: string)
    requires Printable(v) && (rest == "" || !NumberChar(rest[0]))
    ensures Parse(Print(v) + rest) == Some((v, rest))
    decreases v, 0
  {
    hide Parse, ReadString;
    match v
    case Null => ReadPrintedNull(rest);
    case Bool(b) => ReadPrintedBool(b, rest);
    case Number(digits) => ReadPrintedNumber(digits, rest);
    case String(t) => ReadPrintedString(t, rest);
    case Array(items) =>
      ReadPrintedArray(items, rest);
    case Object(members) =>
      ReadPrintedObject(members, rest);
  }

  lemma {:induction false} ReadPrintedArray(items: seq<Value>, rest: string)
    requires Printable(Array(items))
    ensures Parse("[" + PrintItems(items) + "]" + rest) == Some((Array(items), rest))
    decreases items, 4
  {
    hide Parse, ParseItems;
    var tail := PrintItems(items) + "]" + rest;
    Concat("[", PrintItems(items) + "]", rest);
    var s := "[" + PrintItems(items) + "]" + rest;
    assert s == "[" + tail && s[1..] == tail;
    ParseArray(s);
    if items != [] {
      ReadPrintedItems(items, rest);
      FirstCharacter(items[0]);
      assert tail[0] == Print(items[0])[0];
    } else {
      assert tail[1..] == rest;
    }
  }

  lemma {:induction false} ReadPrintedItems(items: seq<Value>, rest: string)
    requires items != [] && forall i :: 0 <= i < |items| ==> Printable(items[i])
    ensures ParseItems(PrintItems(items) + "]" + rest) == Some((items, rest))
    decreases items, 1
  {
    hide Parse, Print;
    if |items| == 1 {
      var after := "]" + rest;
      ReadPrinted(items[0], after);
      Concat(Print(items[0]), "]", rest);
      assert PrintItems(items) == Print(items[0]) && after[1..] == rest && items == [items[0]];
    } else {
      var more := PrintItems(items[1..]) + "]" + rest;
      ReadPrintedItems(items[1..], rest);
      ReadPrinted(items[0], "," + more);
      CommaSeparated(Print(items[0]), PrintItems(items[1..]), "]", rest);
      assert items == [items[0]] + items[1..];
    }
  }

  lemma CommaSeparated(first: string, others: string, close: string, rest: string)
    ensures first + ("," + others) + close + rest == first + ("," + (others + close + rest))
    ensures ("," + (others + close + rest))[1..] == others + close + rest
  {
  }

  lemma {:induction false} ReadPrintedObject(members: seq<Member>, rest: string)
    requires Printable(Object(members))
    ensures Parse("{" + PrintMembers(members) + "}" + rest) == Some((Object(members), rest))
    decreases members, 4
  {
    hide Parse, ParseMembers;
    var tail := PrintMembers(members) + "}" + rest;
    Concat("{", PrintMembers(members) + "}", rest);
    var s := "{" + PrintMembers(members) + "}" + rest;
    assert s == "{" + tail && s[1..] == tail;
    ParseObject(s);
    if members != [] {
      ReadPrintedMembers(members, rest);
      assert tail[0] == '"';
    } else {
      assert tail[1..] == rest;
    }
  }

  lemma {:induction false} ReadPrintedMember(m: Member, rest: string)
    requires Printable(m.value) && (rest == "" || !NumberChar(rest[0]))
    ensures ParseMember(PrintMember(m) + rest) == Some((m, rest))
    decreases m, 1
  {
    hide Parse, Print, ReadString, Escape;
    var value := Print(m.value) + rest;
    ReadEscaped(m.name, ":" + value);
    ReadPrinted(m.value, rest);
    NameAndValue(Escape(m.name), Print(m.value), rest);
  }

  lemma NameAndValue(name: string, value: string, rest: string)
    ensures ("\"" + name + "\":" + value + rest)[1..] == name + "\"" + (":" + (value + rest))
    ensures (":" + (value + rest))[1..] == value + rest
  {
  }

  lemma LastMember(s: string, m: Member, after: string)
    requires ParseMember(s) == Some((m, after)) && after != "" && after[0] == '}'
    ensures ParseMembers(s) == Some(([m], after[1..]))
  {
    hide ParseMember;
  }

  lemma NextMember(s: string, m: Member, after: string)
    requires ParseMember(s) == Some((m, after)) && after != "" && after[0] == ',' && ParseMembers(after[1..]).Some?
    ensures var r := ParseMembers(after[1..]).value; ParseMembers(s) == Some(([m] + r.0, r.1))
  {
    hide ParseMember;
  }

  lemma {:induction false} ReadPrintedMembers(members: seq<Member>, rest: string)
    requires members != [] && forall i :: 0 <= i < |members| ==> Printable(members[i].value)
    ensures ParseMembers(PrintMembers(members) + "}" + rest) == Some((members, rest))
    decreases members, 2
  {
    hide ParseMember, PrintMember, ParseMembers;
    if |members| == 1 {
      var after := "}" + rest;
      ReadPrintedMember(members[0], after);
      Concat(PrintMember(members[0]), "}", rest);
      assert PrintMembers(members) == PrintMember(members[0]) && after[1..] == rest && members == [members[0]];
      LastMember(PrintMember(members[0]) + after, members[0], after);
    } else {
      var more := PrintMembers(members[1..]) + "}" + rest;
      ReadPrintedMembers(members[1..], rest);
      ReadPrintedMember(members[0], "," + more);
      CommaSeparated(PrintMember(members[0]), PrintMembers(members[1..]), "}", rest);
      assert members == [members[0]] + members[1..];
      NextMember(PrintMember(members[0]) + ("," + more), members[0], "," + more);
    }
  }

  /** So different values are printed differently. */
  lemma PrintIsInjective(a: Value, b: Value)
    requires Printable(a) && Printable(b) && Print(a) == Print(b)
    ensures a == b
  {
    ReadPrinted(a, "");
    ReadPrinted(b, "");
    assert Print(a) + "" == Print(a);
  }
}
