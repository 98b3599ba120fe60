/** Syntax trees as JSON values, and back. */
module AstJsonValues {
  import opened Basics
  import opened Json

  datatype Location = Location(beginLine: nat, beginColumn: nat, endLine: nat, endColumn: nat)

  datatype Field = Field(name: string, item: Item)

  /** What the encoder is asked to write: syntax nodes, and the records, lists and scalars they are made of. */
  datatype Item =
    | Nothing
    | Flag(b: bool)
    | Numeral(digits: string)
    | Text(s: string)
    | At(location: Location)
    | List(items: seq<Item>)
    | Record(fields: seq<Field>)
    | Node(kind: string, where: Location, props: seq<Field>)
    | Block(where: Location, hasEnd: bool, body: seq<Item>)

  // ---------------------------------------------------------------- what is to be written

  function Decimal(n: nat): string {
    (if n < 10 then "" else Decimal(n / 10)) + ["0123456789"[n % 10]]
  }

  function PositionText(line: nat, column: nat): string {
    Decimal(line) + "," + Decimal(column)
  }

  function LocationText(l: Location): string {
    PositionText(l.beginLine, l.beginColumn) + " - " + PositionText(l.endLine, l.endColumn)
  }

  /** The JSON value a piece of syntax stands for. */
  function ToJson(item: Item): Value
    decreases item, 0
  {
    match item
    case Nothing => Null
    case Flag(b) => Bool(b)
    case Numeral(digits) => Number(digits)
    case Text(s) => String(s)
    case At(l) => String(LocationText(l))
    case List(items) => Array(ToValues(items))
    case Record(fields) => Object(ToMembers(fields))
    case Node(kind, l, props) => Object(Header(kind, l) + ToMembers(props))
    case Block(l, hasEnd, body) =>
      Object(Header("AstStatBlock", l) + [Member("hasEnd", Bool(hasEnd)), Member("body", Array(ToValues(body)))])
  }

  function Header(kind: string, l: Location): seq<Member> {
    [Member("type", String(kind)), Member("location", String(LocationText(l)))]
  }

  function ToValues(items: seq<Item>): (vs: seq<Value>)
    ensures |vs| == |items|
    decreases items, 1
  {
    if items == [] then [] else [ToJson(items[0])] + ToValues(items[1..])
  }

  function ToMembers(fields: seq<Field>): (ms: seq<Member>)
    ensures |ms| == |fields|
    decreases fields, 1
  {
    if fields == [] then [] else [Member(fields[0].name, ToJson(fields[0].item))] + ToMembers(fields[1..])
  }

  /** Field names are written as they are; they need no escaping. Numerals are finite numbers. */
  ghost predicate Writable(item: Item) {
    match item
    case Numeral(digits) => digits != "" && forall i :: 0 <= i < |digits| ==> NumberChar(digits[i])
    case List(items) => forall i :: 0 <= i < |items| ==> Writable(items[i])
    case Record(fields) => forall i :: 0 <= i < |fields| ==> Escape(fields[i].name) == fields[i].name && Writable(fields[i].item)
    case Node(_, _, props) => forall i :: 0 <= i < |props| ==> Escape(props[i].name) == props[i].name && Writable(props[i].item)
    case Block(_, _, body) => forall i :: 0 <= i < |body| ==> Writable(body[i])
    case _ => true
  }

  ghost predicate WritableFields(fields: seq<Field>) {
    forall i :: 0 <= i < |fields| ==> Escape(fields[i].name) == fields[i].name && Writable(fields[i].item)
  }

  ghost predicate WritableItems(items: seq<Item>) {
    forall i :: 0 <= i < |items| ==> Writable(items[i])
  }

  // ---------------------------------------------------------------- and back

  predicate IsDigit(c: char) {
    '0' <= c <= '9'
  }

  /** The number of digits that a text starts with. */
  function DigitCount(s: string): (n: nat)
    ensures n <= |s| && forall i :: 0 <= i < n ==> IsDigit(s[i])
  {
    if s == "" || !IsDigit(s[0]) then 0 else 1 + DigitCount(s[1..])
  }

  function DigitOf(c: char): nat
    requires IsDigit(c)
  {
    c as int - '0' as int
  }

  /** The number that some digits stand for, to the base of ten. */
  function NumberOf(digits: string): nat
    requires forall i :: 0 <= i < |digits| ==> IsDigit(digits[i])
  {
    if digits == "" then 0
    else 10 * NumberOf(digits[..|digits| - 1]) + DigitOf(digits[|digits| - 1])
  }

  /** A number, and what comes after it. */
  function ReadDecimal(s: string): Option<(nat, string)> {
    var n := DigitCount(s);
    if n == 0 then None else Some((NumberOf(s[..n]), s[n..]))
  }

  /** Two numbers with this between them, and what comes after them. */
  function ReadTwo(s: string, between: string): Option<((nat, nat), string)> {
    var a := ReadDecimal(s);
    if a.None? || !(between <= a.value.1) then None
    else
      var b := ReadDecimal(a.value.1[|between|..]);
      if b.None? then None else Some(((a.value.0, b.value.0), b.value.1))
  }

  function ReadLocation(s: string): Option<Location> {
    var from := ReadTwo(s, ",");
    if from.None? || !(" - " <= from.value.1) then None
    else
      var to := ReadTwo(from.value.1[3..], ",");
      if to.None? || to.value.1 != "" then None
      else Some(Location(from.value.0.0, from.value.0.1, to.value.0.0, to.value.0.1))
  }

  /** What a value is read as. Strings can be texts or locations, objects can be records, nodes or blocks. */
  datatype Shape =
    | Scalar
    | Place
    | Listing(items: seq<Shape>)
    | Fields(fields: seq<Shape>)
    | Syntax(props: seq<Shape>)
    | Body(body: seq<Shape>)

  function ShapeOf(item: Item): Shape
    decreases item, 0
  {
    match item
    case At(_) => Place
    case List(items) => Listing(ShapesOf(items))
    case Record(fields) => Fields(ShapesOfFields(fields))
    case Node(_, _, props) => Syntax(ShapesOfFields(props))
    case Block(_, _, body) => Body(ShapesOf(body))
    case _ => Scalar
  }

  function ShapesOf(items: seq<Item>): seq<Shape>
    decreases items, 1
  {
    if items == [] then [] else [ShapeOf(items[0])] + ShapesOf(items[1..])
  }

  function ShapesOfFields(fields: seq<Field>): seq<Shape>
    decreases fields, 1
  {
    if fields == [] then [] else [ShapeOf(fields[0].item)] + ShapesOfFields(fields[1..])
  }

  function FromJson(v: Value, shape: Shape): Option<Item>
    decreases shape, 0
  {
    match shape
    case Scalar =>
      (match v
       case Null => Some(Nothing)
       case Bool(b) => Some(Flag(b))
       case Number(digits) => Some(Numeral(digits))
       case String(s) => Some(Text(s))
       case _ => None)
    case Place =>
      var l := ReadPlace(v);
      if l.Some? then Some(At(l.value)) else None
    case Listing(items) =>
      var r := FromArray(v, items);
      if r.Some? then Some(List(r.value)) else None
    case Fields(fields) =>
      var r := if v.Object? then FromMembers(v.members, fields) else None;
      if r.Some? then Some(Record(r.value)) else None
    case Syntax(props) =>
      var r := if v.Object? && |v.members| >= 2 then FromMembers(v.members[2..], props) else None;
      if r.None? then None
      else
        var kind, l := v.members[0], ReadPlace(v.members[1].value);
        if kind.name == "type" && kind.value.String? && v.members[1].name == "location" && l.Some?
        then Some(Node(kind.value.s, l.value, r.value)) else None
    case Body(body) =>
      if !v.Object? || |v.members| != 4 then None
      else
        var l, hasEnd, r := ReadPlace(v.members[1].value), v.members[2], FromArray(v.members[3].value, body);
        if && v.members[0] == Member("type", String("AstStatBlock")) && v.members[1].name == "location" && l.Some?
           && hasEnd.name == "hasEnd" && hasEnd.value.Bool? && v.members[3].name == "body" && r.Some?
        then Some(Block(l.value, hasEnd.value.b, r.value)) else None
  }

  function ReadPlace(v: Value): Option<Location> {
    if v.String? then ReadLocation(v.s) else None
  }

  function FromArray(v: Value, shapes: seq<Shape>): Option<seq<Item>>
    decreases shapes, 2
  {
    if v.Array? then FromValues(v.items, shapes) else None
  }

  function FromValues(vs: seq<Value>, shapes: seq<Shape>): Option<seq<Item>>
    decreases shapes, 1
  {
    if |vs| != |shapes| then None
    else if vs == [] then Some([])
    else
      var first, rest := FromJson(vs[0], shapes[0]), FromValues(vs[1..], shapes[1..]);
      if first.Some? && rest.Some? then Some([first.value] + rest.value) else None
  }

  function FromMembers(ms: seq<Member>, shapes: seq<Shape>): Option<seq<Field>>
    decreases shapes, 1
  {
    if |ms| != |shapes| then None
    else if ms == [] then Some([])
    else
      var first, rest := FromJson(ms[0].value, shapes[0]), FromMembers(ms[1..], shapes[1..]);
      if first.Some? && rest.Some? then Some([Field(ms[0].name, first.value)] + rest.value) else None
  }

  // ---------------------------------------------------------------- nothing is lost

  lemma {:induction false} DecimalIsDigits(n: nat)
    ensures Decimal(n) != "" && forall i :: 0 <= i < |Decimal(n)| ==> IsDigit(Decimal(n)[i])
  {
    if n >= 10 {
      DecimalIsDigits(n / 10);
    }
  }

  lemma LastDigit(n: nat)
    requires n < 10
    ensures IsDigit("0123456789"[n]) && DigitOf("0123456789"[n]) == n
  {
  }

  lemma OneMoreDigit(digits: string, c: char)
    requires IsDigit(c) && forall i :: 0 <= i < |digits| ==> IsDigit(digits[i])
    ensures forall i :: 0 <= i < |digits + [c]| ==> IsDigit((digits + [c])[i])
    ensures NumberOf(digits + [c]) == 10 * NumberOf(digits) + DigitOf(c)
  {
    hide IsDigit, DigitOf;
    assert (digits + [c])[..|digits + [c]| - 1] == digits;
  }

  /** Reading decimal digits undoes writing them. */
  lemma {:induction false} DecimalIsRead(n: nat)
    ensures (forall i :: 0 <= i < |Decimal(n)| ==> IsDigit(Decimal(n)[i])) && NumberOf(Decimal(n)) == n
  {
    hide IsDigit, DigitOf, NumberOf;
    var c := "0123456789"[n % 10];
    LastDigit(n % 10);
    var front := if n < 10 then "" else Decimal(n / 10);
    if n >= 10 {
      DecimalIsRead(n / 10);
    }
    assert Decimal(n) == front + [c];
    assert NumberOf("") == 0 by {
      NoDigits();
    }
    OneMoreDigit(front, c);
  }

  lemma NoDigits()
    ensures NumberOf("") == 0
  {
  }

  lemma {:induction false} DigitsOfConcat(digits: string, rest: string)
    requires forall i :: 0 <= i < |digits| ==> IsDigit(digits[i])
    requires rest == "" || !IsDigit(rest[0])
    ensures DigitCount(digits + rest) == |digits|
  {
    if digits == "" {
      assert digits + rest == rest;
    } else {
      assert (digits + rest)[1..] == digits[1..] + rest;
      DigitsOfConcat(digits[1..], rest);
    }
  }

  lemma DecimalThenRest(n: nat, rest: string)
    requires rest == "" || !IsDigit(rest[0])
    ensures ReadDecimal(Decimal(n) + rest) == Some((n, rest))
  {
    hide DigitCount, NumberOf, Decimal;
    DecimalIsDigits(n);
    DecimalIsRead(n);
    DigitsOfConcat(Decimal(n), rest);
    Concat(Decimal(n), rest, "");
  }

  lemma PositionIsRead(line: nat, column: nat, rest: string)
    requires rest == "" || !IsDigit(rest[0])
    ensures ReadTwo(PositionText(line, column) + rest, ",") == Some(((line, column), rest))
  {
    hide ReadDecimal, Decimal;
    var tail := Decimal(column) + rest;
    Concat(Decimal(line), "," + Decimal(column), rest);
    assert PositionText(line, column) + rest == Decimal(line) + ("," + tail);
    assert ("," + tail)[1..] == tail;
    DecimalThenRest(line, "," + tail);
    DecimalThenRest(column, rest);
  }

  /** A location is read back: four numbers, in their order. */
  lemma LocationIsRead(l: Location)
    ensures ReadLocation(LocationText(l)) == Some(l)
  {
    hide ReadTwo, PositionText;
    var to := PositionText(l.endLine, l.endColumn);
    assert LocationText(l) == PositionText(l.beginLine, l.beginColumn) + (" - " + to);
    assert (" - " + to)[3..] == to;
    assert to + "" == to;
    PositionIsRead(l.beginLine, l.beginColumn, " - " + to);
    PositionIsRead(l.endLine, l.endColumn, "");
  }

  /** Every piece of syntax is read back from its value. */
  lemma {:induction false} JsonIsRead(item: Item)
    ensures FromJson(ToJson(item), ShapeOf(item)) == Some(item)
    decreases item, 0
  {
    hide ReadLocation, LocationText;
    match item
    case At(l) => LocationIsRead(l);
    case List(items) => ValuesAreRead(items);
    case Record(fields) => MembersAreRead(fields);
    case Node(kind, l, props) =>
      LocationIsRead(l);
      MembersAreRead(props);
      assert (Header(kind, l) + ToMembers(props))[2..] == ToMembers(props);
    case Block(l, _, body) =>
      LocationIsRead(l);
      ValuesAreRead(body);
    case _ =>
  }

  lemma {:induction false} ValuesAreRead(items: seq<Item>)
    ensures FromValues(ToValues(items), ShapesOf(items)) == Some(items)
    decreases items, 1
  {
    if items != [] {
      hide ToJson, ShapeOf, FromJson;
      JsonIsRead(items[0]);
      ValuesAreRead(items[1..]);
      assert ToValues(items)[1..] == ToValues(items[1..]) && ShapesOf(items)[1..] == ShapesOf(items[1..]);
      assert [items[0]] + items[1..] == items;
    }
  }

  lemma {:induction false} MembersAreRead(fields: seq<Field>)
    ensures FromMembers(ToMembers(fields), ShapesOfFields(fields)) == Some(fields)
    decreases fields, 1
  {
    if fields != [] {
      hide ToJson, ShapeOf, FromJson;
      JsonIsRead(fields[0].item);
      MembersAreRead(fields[1..]);
      assert ToMembers(fields)[1..] == ToMembers(fields[1..]) && ShapesOfFields(fields)[1..] == ShapesOfFields(fields[1..]);
      assert [fields[0]] + fields[1..] == fields;
    }
  }

  /** A text as a syntax tree of the given shape. */
  function Decode(json: string, shape: Shape): Option<Item> {
    var v := Parse(json);
    if v.Some? && v.value.1 == "" then FromJson(v.value.0, shape) else None
  }
}
