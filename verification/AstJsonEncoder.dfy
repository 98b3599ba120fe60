/** The streaming encoder of syntax trees: a comma flag and a list of chunks, updated by every write. */
module AstJsonEncoders {
  import opened Basics
  import opened Json
  import opened AstJsonValues

  const CHUNK_SIZE: nat := 1024

  // ---------------------------------------------------------------- what needs no escaping

  lemma {:induction false} EscapeConcat(a: string, b: string)
    ensures Escape(a + b) == Escape(a) + Escape(b)
  {
    hide EscapeChar;
    if a == "" {
      assert a + b == b;
    } else {
      EscapeConcat(a[1..], b);
      TailOfConcat(a, b);
      Concat(EscapeChar(a[0]), Escape(a[1..]), Escape(b));
    }
  }

  lemma TailOfConcat(a: string, b: string)
    requires a != ""
    ensures (a + b)[0] == a[0] && (a + b)[1..] == a[1..] + b
  {
  }

  lemma CharIsPlain(c: char)
    requires EscapeChar(c) == [c]
    ensures Escape([c]) == [c]
  {
    assert [c][1..] == "";
  }

  lemma {:induction false} DecimalIsPlain(n: nat)
    ensures Escape(Decimal(n)) == Decimal(n)
  {
    var last := ["0123456789"[n % 10]];
    CharIsPlain(last[0]);
    if n >= 10 {
      DecimalIsPlain(n / 10);
      EscapeConcat(Decimal(n / 10), last);
    }
  }

  lemma PositionIsPlain(line: nat, column: nat)
    ensures Escape(PositionText(line, column)) == PositionText(line, column)
  {
    CharIsPlain(',');
    hide Escape, Decimal;
    DecimalIsPlain(line);
    DecimalIsPlain(column);
    EscapeConcat(Decimal(line), ",");
    EscapeConcat(Decimal(line) + ",", Decimal(column));
  }

  /** Locations are written as they are: they need no escaping either. */
  lemma LocationIsPlain(l: Location)
    ensures Escape(LocationText(l)) == LocationText(l)
  {
    hide PositionText;
    PositionIsPlain(l.beginLine, l.beginColumn);
    PositionIsPlain(l.endLine, l.endColumn);
    EscapeConcat(PositionText(l.beginLine, l.beginColumn), " - ");
    EscapeConcat(PositionText(l.beginLine, l.beginColumn) + " - ", PositionText(l.endLine, l.endColumn));
    DashIsPlain();
  }

  lemma DashIsPlain()
    ensures Escape(" - ") == " - "
  {
    EscapeConcat(" -", " ");
    EscapeConcat(" ", "-");
    CharIsPlain(' ');
    CharIsPlain('-');
    assert " -" + " " == " - " && " " + "-" == " -";
  }

  // ---------------------------------------------------------------- the chunks

  function Join(chunks: seq<string>): string {
    if chunks == [] then "" else Join(chunks[..|chunks| - 1]) + chunks[|chunks| - 1]
  }

  lemma JoinAppend(chunks: seq<string>, chunk: string)
    ensures Join(chunks + [chunk]) == Join(chunks) + chunk
  {
    assert (chunks + [chunk])[..|chunks|] == chunks;
  }

  lemma JoinExtend(chunks: seq<string>, more: string)
    requires chunks != []
    ensures Join(chunks[|chunks| - 1 := chunks[|chunks| - 1] + more]) == Join(chunks) + more
  {
    var n := |chunks| - 1;
    var extended := chunks[n := chunks[n] + more];
    assert extended[..n] == chunks[..n];
    assert Join(chunks[..n]) + (chunks[n] + more) == Join(chunks[..n]) + chunks[n] + more;
  }

  class AstJsonEncoder {
    var chunks: seq<string>
    var comma: bool
    /** Everything written so far. */
    ghost var written: string

    /** The chunks hold everything written, and there is room in the last one. */
    ghost predicate Valid()
      reads this`chunks, this`written
    {
      chunks != [] && |chunks[|chunks| - 1]| < CHUNK_SIZE && Join(chunks) == written
    }

    constructor ()
      ensures Valid() && written == "" && !comma
    {
      chunks, comma, written := [""], false, "";
      new;
      JoinAppend([], "");
    }

    function Str(): (s: string)
      requires Valid()
      reads this
      ensures s == written
    {
      Join(chunks)
    }

    method AppendChunk(sv: string)
      requires Valid()
      modifies this`chunks, this`written
      ensures Valid() && written == old(written) + sv
    {
      written := written + sv;
      if |sv| > CHUNK_SIZE {
        JoinAppend(chunks, sv);
        JoinAppend(chunks + [sv], "");
        chunks := chunks + [sv];
        chunks := chunks + [""];
        return;
      }
      var last := |chunks| - 1;
      if |chunks[last]| + |sv| < CHUNK_SIZE {
        JoinExtend(chunks, sv);
        chunks := chunks[last := chunks[last] + sv];
        return;
      }
      var prefix := CHUNK_SIZE - |chunks[last]|;
      JoinExtend(chunks, sv[..prefix]);
      chunks := chunks[last := chunks[last] + sv[..prefix]];
      JoinAppend(chunks, sv[prefix..]);
      chunks := chunks + [sv[prefix..]];
      assert old(written) + sv[..prefix] + sv[prefix..] == old(written) + sv;
    }

    method PushComma() returns (c: bool)
      modifies this`comma
      ensures c == old(comma) && !comma
    {
      c := comma;
      comma := false;
    }

    method PopComma(c: bool)
      modifies this`comma
      ensures comma == c
    {
      comma := c;
    }

    method WriteString(sv: string)
      requires Valid()
      modifies this`chunks, this`written
      ensures Valid() && written == old(written) + Print(String(sv))
    {
      hide Valid;
      AppendChunk("\"");
      ghost var start := written;
      for i := 0 to |sv|
        invariant Valid() && written + Escape(sv[i..]) == start + Escape(sv)
      {
        ghost var before := written;
        AppendChunk(EscapeChar(sv[i]));
        EscapeStep(before, sv, i);
      }
      assert written + "" == written;
      AppendChunk("\"");
      Quoted(old(written), Escape(sv));
    }

    /** The name of a field, after a comma if one is due. */
    method WriteName(name: string)
      requires Valid() && Escape(name) == name
      modifies this
      ensures Valid() && comma
      ensures written == old(written) + Due(old(comma)) + "\"" + Escape(name) + "\":"
    {
      hide Valid;
      if comma {
        AppendChunk(",");
      }
      comma := true;
      assert written == old(written) + Due(old(comma));
      AppendChunk("\"");
      AppendChunk(name);
      AppendChunk("\":");
    }

    method WritePosition(line: nat, column: nat)
      requires Valid()
      modifies this`chunks, this`written
      ensures Valid() && written == old(written) + PositionText(line, column)
    {
      hide Valid, Decimal;
      AppendChunk(Decimal(line));
      AppendChunk(",");
      AppendChunk(Decimal(column));
      Three(old(written), Decimal(line), ",", Decimal(column));
    }

    method WriteLocation(l: Location)
      requires Valid()
      modifies this`chunks, this`written
      ensures Valid() && written == old(written) + Print(String(LocationText(l)))
    {
      hide Valid, PositionText;
      ghost var from, to' := PositionText(l.beginLine, l.beginColumn), PositionText(l.endLine, l.endColumn);
      AppendChunk("\"");
      ghost var start := written;
      WritePosition(l.beginLine, l.beginColumn);
      AppendChunk(" - ");
      WritePosition(l.endLine, l.endColumn);
      Three(start, from, " - ", to');
      AppendChunk("\"");
      LocationIsPlain(l);
      Quoted(old(written), LocationText(l));
    }

    /** Any piece of syntax. What is written is its JSON value, and the comma flag is as it was before. */
    method WriteItem(item: Item)
      requires Valid() && Writable(item)
      modifies this
      ensures Valid() && comma == old(comma)
      ensures written == old(written) + Print(ToJson(item))
      decreases item, 2
    {
      hide Valid, Print;
      match item
      case Nothing => AppendChunk("null"); ScalarText(item);
      case Flag(b) => AppendChunk(if b then "true" else "false"); ScalarText(item);
      case Numeral(digits) => AppendChunk(digits); ScalarText(item);
      case Text(s) => WriteString(s);
      case At(l) => WriteLocation(l);
      case List(items) =>
        AppendChunk("[");
        WriteList(items);
        AppendChunk("]");
        ArrayText(old(written), ToValues(items));
      case Record(fields) =>
        AppendChunk("{");
        var c := PushComma();
        WriteFields(fields);
        PopComma(c);
        AppendChunk("}");
        ObjectText(old(written), ToMembers(fields));
      case Node(kind, l, props) => WriteNode(kind, l, props);
      case Block(l, hasEnd, body) => WriteBlock(l, hasEnd, body);
    }

    /** A syntax node: its type and location come first, then its other properties. */
    method WriteNode(kind: string, l: Location, props: seq<Field>)
      requires Valid() && WritableFields(props)
      modifies this
      ensures Valid() && comma == old(comma)
      ensures written == old(written) + Print(Object(Header(kind, l) + ToMembers(props)))
      decreases props, 2
    {
      hide Valid, Print, PrintMembers, Rest;
      AppendChunk("{");
      var c := PushComma();
      WriteHeader(kind, l);
      WriteFields(props);
      PopComma(c);
      AppendChunk("}");
      HeadedText(old(written), Header(kind, l), ToMembers(props));
    }

    /** A block writes its own fields without regard to the comma flag, which its header has set. */
    method WriteBlock(l: Location, hasEnd: bool, body: seq<Item>)
      requires Valid() && WritableItems(body)
      modifies this
      ensures Valid() && comma == old(comma)
      ensures written == old(written) +
        Print(Object(Header("AstStatBlock", l) + [Member("hasEnd", Bool(hasEnd)), Member("body", Array(ToValues(body)))]))
      decreases body, 2
    {
      hide Valid, Print, PrintMembers, PrintItems;
      AppendChunk("{");
      var c := PushComma();
      WriteHeader("AstStatBlock", l);
      AppendChunk(",\"hasEnd\":");
      AppendChunk(if hasEnd then "true" else "false");
      AppendChunk(",\"body\":[");
      WriteList(body);
      AppendChunk("]");
      PopComma(c);
      AppendChunk("}");
      BlockText(old(written), Header("AstStatBlock", l), hasEnd, ToValues(body));
    }

    /** The type and the location of a syntax node. */
    method WriteHeader(kind: string, l: Location)
      requires Valid() && !comma
      modifies this
      ensures Valid() && comma && written == old(written) + PrintMembers(Header(kind, l))
    {
      hide Valid, Print;
      HeaderNames();
      WriteName("type");
      WriteString(kind);
      WriteName("location");
      WriteLocation(l);
      HeaderText(old(written), kind, l);
    }

    /** Fields, each after a comma unless it is the first of its object. */
    method WriteFields(fields: seq<Field>)
      requires Valid() && WritableFields(fields)
      modifies this
      ensures Valid() && comma == (old(comma) || fields != [])
      ensures written == old(written) + Rest(old(comma), ToMembers(fields))
      decreases fields, 1
    {
      hide Valid, Print;
      for i := 0 to |fields|
        invariant Valid() && comma == (old(comma) || i > 0)
        invariant written + Rest(comma, ToMembers(fields[i..])) == old(written) + Rest(old(comma), ToMembers(fields))
      {
        ghost var before, due := written, comma;
        WriteName(fields[i].name);
        WriteItem(fields[i].item);
        FieldStep(before, due, fields, i);
      }
      RestIsEmpty(written, comma);
    }

    /** Items, separated by commas. */
    method WriteList(items: seq<Item>)
      requires Valid() && WritableItems(items)
      modifies this
      ensures Valid() && comma == old(comma)
      ensures written == old(written) + PrintItems(ToValues(items))
      decreases items, 1
    {
      hide Valid, Print, PrintItems, ToValues, RestItems;
      var separate := false;
      RestItemsStart(written, ToValues(items));
      assert items[0..] == items;
      for i := 0 to |items|
        invariant Valid() && comma == old(comma) && separate == (i > 0)
        invariant written + RestItems(separate, ToValues(items[i..])) == old(written) + PrintItems(ToValues(items))
      {
        ghost var before, due := written, separate;
        if separate {
          AppendChunk(",");
        } else {
          separate := true;
        }
        DueText(before, due);
        WriteItem(items[i]);
        ItemStep(before, due, items, i);
      }
      NoItemsLeft(written, separate, items);
    }
  }

  lemma Three(w: string, a: string, b: string, c: string)
    ensures w + a + b + c == w + (a + b + c)
  {
  }

  function Due(comma: bool): string {
    if comma then "," else ""
  }

  lemma EscapeStep(before: string, s: string, i: nat)
    requires i < |s|
    ensures before + EscapeChar(s[i]) + Escape(s[i + 1..]) == before + Escape(s[i..])
  {
    assert s[i..][1..] == s[i + 1..];
  }

  lemma Quoted(before: string, s: string)
    ensures before + "\"" + s + "\"" == before + ("\"" + s + "\"")
  {
  }

  /** Members yet to be written, after a comma if one is due. */
  function Rest(comma: bool, ms: seq<Member>): string {
    if ms == [] then "" else Due(comma) + PrintMembers(ms)
  }

  function RestItems(comma: bool, vs: seq<Value>): string {
    if vs == [] then "" else Due(comma) + PrintItems(vs)
  }

  lemma DueText(w: string, due: bool)
    ensures w + Due(due) == if due then w + "," else w
  {
  }

  lemma RestItemsStart(w: string, vs: seq<Value>)
    ensures w + RestItems(false, vs) == w + PrintItems(vs)
  {
  }

  lemma NoItemsLeft(w: string, comma: bool, items: seq<Item>)
    ensures w + RestItems(comma, ToValues(items[|items|..])) == w
  {
  }

  lemma RestIsEmpty(w: string, comma: bool)
    ensures w + Rest(comma, []) == w && w + RestItems(comma, []) == w
  {
  }

  lemma FirstAndRest(m: Member, ms: seq<Member>)
    ensures PrintMembers([m] + ms) == PrintMember(m) + Rest(true, ms)
  {
    assert ([m] + ms)[1..] == ms;
    RestIsEmpty(PrintMember(m), true);
  }

  lemma FirstAndRestItems(v: Value, vs: seq<Value>)
    ensures PrintItems([v] + vs) == Print(v) + RestItems(true, vs)
  {
    assert ([v] + vs)[1..] == vs;
    RestIsEmpty(Print(v), true);
  }

  /** One field has been written, after a comma if it was due; what is left follows after a comma. */
  lemma FieldStep(before: string, due: bool, fields: seq<Field>, i: nat)
    requires i < |fields|
    ensures var f := fields[i];
            before + Due(due) + "\"" + Escape(f.name) + "\":" + Print(ToJson(f.item)) + Rest(true, ToMembers(fields[i + 1..]))
              == before + Rest(due, ToMembers(fields[i..]))
  {
    var f, ms := fields[i], ToMembers(fields[i + 1..]);
    assert fields[i..][1..] == fields[i + 1..];
    var m := Member(f.name, ToJson(f.item));
    assert ToMembers(fields[i..]) == [m] + ms;
    FirstAndRest(m, ms);
    MemberText(before + Due(due), Escape(f.name), Print(ToJson(f.item)), Rest(true, ms));
    Concat(before, Due(due), PrintMember(m) + Rest(true, ms));
  }

  lemma MemberText(w: string, name: string, value: string, rest: string)
    ensures w + "\"" + name + "\":" + value + rest == w + ("\"" + name + "\":" + value + rest)
  {
  }

  lemma ItemStep(before: string, due: bool, items: seq<Item>, i: nat)
    requires i < |items|
    ensures before + Due(due) + Print(ToJson(items[i])) + RestItems(true, ToValues(items[i + 1..]))
              == before + RestItems(due, ToValues(items[i..]))
  {
    var vs := ToValues(items[i + 1..]);
    assert items[i..][1..] == items[i + 1..];
    assert ToValues(items[i..]) == [ToJson(items[i])] + vs;
    FirstAndRestItems(ToJson(items[i]), vs);
    Concat(before + Due(due), Print(ToJson(items[i])), RestItems(true, vs));
    Concat(before, Due(due), Print(ToJson(items[i])) + RestItems(true, vs));
  }

  lemma ScalarText(item: Item)
    ensures Print(ToJson(Nothing)) == "null"
    ensures item.Flag? ==> Print(ToJson(item)) == if item.b then "true" else "false"
    ensures item.Numeral? ==> Print(ToJson(item)) == item.digits
  {
  }

  lemma ArrayText(w: string, vs: seq<Value>)
    ensures w + "[" + PrintItems(vs) + "]" == w + Print(Array(vs))
  {
    Three(w, "[", PrintItems(vs), "]");
  }

  lemma ObjectText(w: string, ms: seq<Member>)
    ensures w + "{" + Rest(false, ms) + "}" == w + Print(Object(ms))
  {
    assert Rest(false, ms) == PrintMembers(ms);
    Three(w, "{", PrintMembers(ms), "}");
  }

  /** A member as the encoder writes it: piece by piece. */
  lemma Pieces(w: string, m: Member)
    ensures w + "\"" + Escape(m.name) + "\":" + Print(m.value) == w + PrintMember(m)
  {
    MemberText(w, Escape(m.name), Print(m.value), "");
    RestIsEmpty(w + "\"" + Escape(m.name) + "\":" + Print(m.value), true);
    RestIsEmpty("\"" + Escape(m.name) + "\":" + Print(m.value), true);
  }

  lemma TwoMembers(w: string, m: Member, n: Member)
    ensures w + Due(false) + "\"" + Escape(m.name) + "\":" + Print(m.value)
              + Due(true) + "\"" + Escape(n.name) + "\":" + Print(n.value)
            == w + PrintMembers([m, n])
  {
    hide Escape, Print, PrintMember;
    Pieces(w + Due(false), m);
    Pieces(w + PrintMember(m) + Due(true), n);
    assert w + Due(false) == w;
    assert [m] + [n] == [m, n];
    FirstAndRest(m, [n]);
    FirstAndRest(n, []);
    assert [n] + [] == [n];
    RestIsEmpty(PrintMember(n), true);
    Concat(w, PrintMember(m), ",");
    Concat(w, PrintMember(m) + ",", PrintMember(n));
    Concat(PrintMember(m), ",", PrintMember(n));
  }

  lemma HeaderText(w: string, kind: string, l: Location)
    ensures w + Due(false) + "\"" + Escape("type") + "\":" + Print(String(kind))
              + Due(true) + "\"" + Escape("location") + "\":" + Print(String(LocationText(l)))
            == w + PrintMembers(Header(kind, l))
  {
    TwoMembers(w, Member("type", String(kind)), Member("location", String(LocationText(l))));
  }

  lemma {:induction false} PlainText(s: string)
    requires forall i :: 0 <= i < |s| ==> 'A' <= s[i] <= 'Z' || 'a' <= s[i] <= 'z'
    ensures Escape(s) == s
  {
    if s != "" {
      PlainText(s[1..]);
    }
  }

  lemma HeaderNames()
    ensures Escape("type") == "type" && Escape("location") == "location"
    ensures Escape("hasEnd") == "hasEnd" && Escape("body") == "body"
  {
    hide Escape;
    PlainText("type");
    PlainText("location");
    PlainText("hasEnd");
    PlainText("body");
  }

  lemma {:induction false} MembersConcat(a: seq<Member>, b: seq<Member>)
    requires a != []
    ensures PrintMembers(a + b) == PrintMembers(a) + Rest(true, b)
  {
    hide PrintMember, PrintMembers;
    var m, ms := a[0], a[1..];
    FirstAndRest(m, ms + b);
    FirstAndRest(m, ms);
    assert a == [m] + ms && a + b == [m] + (ms + b);
    if ms == [] {
      assert ms + b == b;
      RestIsEmpty(PrintMember(m), true);
    } else {
      MembersConcat(ms, b);
      RestOfRest(PrintMember(m), PrintMembers(ms), Rest(true, b));
    }
  }

  lemma RestOfRest(first: string, others: string, rest: string)
    ensures first + ("," + (others + rest)) == first + ("," + others) + rest
  {
  }

  lemma HeadedText(w: string, header: seq<Member>, ms: seq<Member>)
    requires header != []
    ensures w + "{" + PrintMembers(header) + Rest(true, ms) + "}" == w + Print(Object(header + ms))
  {
    MembersConcat(header, ms);
    Concat(w + "{", PrintMembers(header), Rest(true, ms));
    Three(w, "{", PrintMembers(header + ms), "}");
  }

  lemma BlockText(w: string, header: seq<Member>, hasEnd: bool, vs: seq<Value>)
    requires header != []
    ensures w + "{" + PrintMembers(header) + ",\"hasEnd\":" + (if hasEnd then "true" else "false")
              + ",\"body\":[" + PrintItems(vs) + "]" + "}"
            == w + Print(Object(header + [Member("hasEnd", Bool(hasEnd)), Member("body", Array(vs))]))
  {
    var flag, list := Member("hasEnd", Bool(hasEnd)), Member("body", Array(vs));
    HeadedText(w, header, [flag, list]);
    BodyText(hasEnd, vs);
    Adjacent(w + "{" + PrintMembers(header), ",\"hasEnd\":", if hasEnd then "true" else "false",
             ",\"body\":[", PrintItems(vs), "]");
  }

  lemma Adjacent(w: string, a: string, b: string, c: string, d: string, e: string)
    ensures w + a + b + c + d + e == w + (a + b + c + d + e)
  {
  }

  lemma BodyText(hasEnd: bool, vs: seq<Value>)
    ensures ",\"hasEnd\":" + (if hasEnd then "true" else "false") + ",\"body\":[" + PrintItems(vs) + "]"
            == Rest(true, [Member("hasEnd", Bool(hasEnd)), Member("body", Array(vs))])
  {
    var flag, list := Member("hasEnd", Bool(hasEnd)), Member("body", Array(vs));
    hide PrintMember, PrintMembers, Print, Escape, PrintItems;
    BodyMembers(hasEnd, vs);
    assert [flag] + [list] == [flag, list] && [list] + [] == [list];
    FirstAndRest(flag, [list]);
    FirstAndRest(list, []);
    RestIsEmpty(PrintMember(list), true);
    BodyPieces(if hasEnd then "true" else "false", PrintItems(vs));
  }

  lemma BodyMembers(hasEnd: bool, vs: seq<Value>)
    ensures PrintMember(Member("hasEnd", Bool(hasEnd))) == "\"hasEnd\":" + if hasEnd then "true" else "false"
    ensures PrintMember(Member("body", Array(vs))) == "\"body\":" + ("[" + PrintItems(vs) + "]")
  {
    HeaderNames();
    hide Escape, PrintItems;
    assert "\"" + "hasEnd" + "\":" == "\"hasEnd\":";
    assert "\"" + "body" + "\":" == "\"body\":";
  }

  lemma BodyPieces(flag: string, items: string)
    ensures ",\"hasEnd\":" + flag + ",\"body\":[" + items + "]"
            == "," + ("\"hasEnd\":" + flag + ("," + ("\"body\":" + ("[" + items + "]"))))
  {
  }

  // ---------------------------------------------------------------- whole documents

  lemma {:induction false} WritableIsPrintable(item: Item)
    requires Writable(item)
    ensures Printable(ToJson(item))
    decreases item, 0
  {
    match item
    case List(items) => ValuesArePrintable(items);
    case Record(fields) => MembersArePrintable(fields);
    case Node(kind, l, props) =>
      MembersArePrintable(props);
      var ms := Header(kind, l) + ToMembers(props);
      assert forall i :: 0 <= i < |ms| ==> Printable(ms[i].value);
    case Block(l, hasEnd, body) =>
      ValuesArePrintable(body);
      var ms := Header("AstStatBlock", l) + [Member("hasEnd", Bool(hasEnd)), Member("body", Array(ToValues(body)))];
      assert forall i :: 0 <= i < |ms| ==> Printable(ms[i].value);
    case _ =>
  }

  lemma {:induction false} ValuesArePrintable(items: seq<Item>)
    requires WritableItems(items)
    ensures forall i :: 0 <= i < |items| ==> Printable(ToValues(items)[i])
    decreases items, 1
  {
    if items != [] {
      WritableIsPrintable(items[0]);
      ValuesArePrintable(items[1..]);
    }
  }

  lemma {:induction false} MembersArePrintable(fields: seq<Field>)
    requires WritableFields(fields)
    ensures forall i :: 0 <= i < |fields| ==> Printable(ToMembers(fields)[i].value)
    decreases fields, 1
  {
    if fields != [] {
      WritableIsPrintable(fields[0].item);
      MembersArePrintable(fields[1..]);
    }
  }

  /** The JSON text of a syntax tree. A reader gets the tree back from it, with nothing left over. */
  method Encode(root: Item) returns (json: string)
    requires Writable(root)
    ensures json == Print(ToJson(root))
    ensures Parse(json) == Some((ToJson(root), "")) && Decode(json, ShapeOf(root)) == Some(root)
  {
    JsonIsRead(root);
    var encoder := new AstJsonEncoder();
    encoder.WriteItem(root);
    json := encoder.Str();
    WritableIsPrintable(root);
    ReadPrinted(ToJson(root), "");
    assert "" + Print(ToJson(root)) == Print(ToJson(root)) == Print(ToJson(root)) + "";
  }

  function WithComments(root: Item, comments: seq<Item>): Value {
    Object([Member("root", ToJson(root)), Member("commentLocations", Array(ToValues(comments)))])
  }

  /** The tree and the comments as one. */
  function Document(root: Item, comments: seq<Item>): Item {
    Record([Field("root", root), Field("commentLocations", List(comments))])
  }

  lemma DocumentIsRecord(root: Item, comments: seq<Item>)
    ensures ToJson(Document(root, comments)) == WithComments(root, comments)
  {
    var first, second := Field("root", root), Field("commentLocations", List(comments));
    assert [first, second][1..] == [second] && [second][1..] == [];
    assert ToMembers([second]) == [Member("commentLocations", ToJson(List(comments)))];
  }

  /** The JSON text of a syntax tree and the comments of its file. */
  method EncodeWithComments(root: Item, comments: seq<Item>) returns (json: string)
    requires Writable(root) && WritableItems(comments)
    ensures json == Print(WithComments(root, comments))
    ensures Parse(json) == Some((WithComments(root, comments), ""))
    ensures Decode(json, ShapeOf(Document(root, comments))) == Some(Document(root, comments))
  {
    DocumentIsRecord(root, comments);
    JsonIsRead(Document(root, comments));
    hide Parse, Print, PrintItems, ToJson, ToValues, WithComments, Writable, WritableItems, FromJson, ShapeOf;
    var encoder := new AstJsonEncoder();
    encoder.AppendChunk("{\"root\":");
    encoder.WriteItem(root);
    encoder.AppendChunk(",\"commentLocations\":[");
    encoder.WriteList(comments);
    encoder.AppendChunk("]}");
    json := encoder.Str();
    DocumentText(Print(ToJson(root)), root, comments);
    DocumentIsRead(root, comments);
  }

  lemma DocumentIsRead(root: Item, comments: seq<Item>)
    requires Writable(root) && WritableItems(comments)
    ensures Parse(Print(WithComments(root, comments))) == Some((WithComments(root, comments), ""))
  {
    hide Parse, Print, ToJson, ToValues, Writable, WritableItems;
    WritableIsPrintable(root);
    ValuesArePrintable(comments);
    ReadPrinted(WithComments(root, comments), "");
    assert Print(WithComments(root, comments)) + "" == Print(WithComments(root, comments));
  }

  lemma DocumentText(text: string, root: Item, comments: seq<Item>)
    requires text == Print(ToJson(root))
    ensures "" + "{\"root\":" + text + ",\"commentLocations\":[" + PrintItems(ToValues(comments)) + "]}"
            == Print(WithComments(root, comments))
  {
    hide PrintMember, PrintMembers, Escape, PrintItems, ToJson, ToValues;
    var tree, list := Member("root", ToJson(root)), Member("commentLocations", Array(ToValues(comments)));
    RootMember(tree.value);
    CommentsMember(ToValues(comments));
    TwoOfObject(tree, list);
    DocumentPieces(text, PrintItems(ToValues(comments)));
  }

  lemma TwoOfObject(m: Member, n: Member)
    ensures Print(Object([m, n])) == "{" + (PrintMember(m) + ("," + PrintMember(n))) + "}"
  {
    hide PrintMember, Escape;
    assert [m] + [n] == [m, n] && [n] + [] == [n];
    FirstAndRest(m, [n]);
    FirstAndRest(n, []);
    RestIsEmpty(PrintMember(n), true);
  }

  lemma PlainMember(m: Member)
    requires Escape(m.name) == m.name
    ensures PrintMember(m) == "\"" + m.name + "\":" + Print(m.value)
  {
  }

  lemma RootMember(value: Value)
    ensures PrintMember(Member("root", value)) == "\"root\":" + Print(value)
  {
    hide Escape, Print, PrintMember;
    PlainText("root");
    PlainMember(Member("root", value));
    assert "\"" + "root" + "\":" == "\"root\":";
  }

  lemma CommentsMember(vs: seq<Value>)
    ensures PrintMember(Member("commentLocations", Array(vs))) == "\"commentLocations\":" + ("[" + PrintItems(vs) + "]")
  {
    hide Escape, PrintMember, PrintItems;
    var name := "commentLocations";
    PlainText(name);
    PlainMember(Member(name, Array(vs)));
    assert "\"" + name + "\":" == "\"commentLocations\":";
  }

  lemma DocumentPieces(tree: string, items: string)
    ensures "" + "{\"root\":" + tree + ",\"commentLocations\":[" + items + "]}"
            == "{" + ("\"root\":" + tree + ("," + ("\"commentLocations\":" + ("[" + items + "]")))) + "}"
  {
  }
}
