/** The parser's loops over a reader, the printer's appends to a buffer, and whole method calls. */
module XmlReader {
  import opened Prelude
  import opened XmlTokens
  import opened XmlRpc
  import opened XmlRoundTrip

  class Reader {
    var events: seq<Token>

    constructor (xml: string)
      ensures events == Tokenize(xml)
    {
      events := Tokenize(xml);
    }

    /** None at the end of the document. */
    method ReadEvent() returns (e: Option<Token>)
      modifies this
      ensures old(events) == [] ==> e == None && events == []
      ensures old(events) != [] ==> e == Some(old(events)[0]) && events == old(events)[1..]
    {
      if events == [] {
        return None;
      }
      e := Some(events[0]);
      events := events[1..];
    }
  }

  method ReadTextFrom(reader: Reader, end: string) returns (text: Option<string>)
    modifies reader
    ensures text.Some? ==> ReadText(old(reader.events), end, "") == Some(Parsed(text.value, reader.events))
    ensures text.None? ==> ReadText(old(reader.events), end, "") == None
  {
    var out := "";
    while true
      invariant ReadText(old(reader.events), end, "") == ReadText(reader.events, end, out)
      decreases |reader.events|
    {
      var e := reader.ReadEvent();
      match e
      case None => return None;
      case Some(Text(t)) => out := out + Newlines(t);
      case Some(Ref(name)) => out := out + ResolveRef(name);
      case Some(End(name)) =>
        if name == end {
          return Some(out);
        }
      case Some(Broken) => return None;
      case Some(_) =>
    }
  }

  method ParseValueFrom(reader: Reader) returns (value: Option<Value>)
    modifies reader
    ensures value.Some? ==> ParseValue(old(reader.events), None, None) == Some(Parsed(value.value, reader.events))
    ensures value.None? ==> ParseValue(old(reader.events), None, None) == None
    decreases |reader.events|, 0
  {
    var result: Option<Value>, bare: Option<string> := None, None;
    while true
      invariant |reader.events| <= |old(reader.events)|
      invariant ParseValue(old(reader.events), None, None) == ParseValue(reader.events, result, bare)
      decreases |reader.events|
    {
      var e := reader.ReadEvent();
      match e
      case None => return None;
      case Some(Start(tag)) =>
        if IsScalar(tag) {
          var text := ReadTextFrom(reader, tag);
          if text.None? {
            return None;
          }
          result := Some(Scalar(tag, text.value));
        } else if tag == "nil" {
          result := Some(Null);
        } else if tag == "array" {
          var items := ParseArrayFrom(reader);
          if items.None? {
            return None;
          }
          result := Some(Array(items.value));
        } else if tag == "struct" {
          var members := ParseStructFrom(reader);
          if members.None? {
            return None;
          }
          result := Some(Object(members.value));
        }
      case Some(Text(t)) => bare := Append(bare, Newlines(t));
      case Some(Ref(name)) => bare := Append(bare, ResolveRef(name));
      case Some(End(tag)) =>
        if tag == "value" {
          return Some(OrBare(result, bare));
        }
      case Some(Broken) => return None;
      case Some(_) =>
    }
  }

  method ParseArrayFrom(reader: Reader) returns (items: Option<seq<Value>>)
    modifies reader
    ensures items.Some? ==> ParseArray(old(reader.events), []) == Some(Parsed(items.value, reader.events))
    ensures items.None? ==> ParseArray(old(reader.events), []) == None
    decreases |reader.events|, 1
  {
    var found: seq<Value> := [];
    while true
      invariant |reader.events| <= |old(reader.events)|
      invariant ParseArray(old(reader.events), []) == ParseArray(reader.events, found)
      decreases |reader.events|
    {
      var e := reader.ReadEvent();
      match e
      case None => return None;
      case Some(Start(tag)) =>
        if tag == "value" {
          var v := ParseValueFrom(reader);
          if v.None? {
            return None;
          }
          found := found + [v.value];
        }
      case Some(End(tag)) =>
        if tag == "array" {
          return Some(found);
        }
      case Some(Broken) => return None;
      case Some(_) =>
    }
  }

  method ParseStructFrom(reader: Reader) returns (members: Option<seq<Member>>)
    modifies reader
    ensures members.Some? ==> ParseStruct(old(reader.events), [], "", false) == Some(Parsed(members.value, reader.events))
    ensures members.None? ==> ParseStruct(old(reader.events), [], "", false) == None
    decreases |reader.events|, 1
  {
    var found: seq<Member>, key, inName := [], "", false;
    while true
      invariant |reader.events| <= |old(reader.events)|
      invariant ParseStruct(old(reader.events), [], "", false) == ParseStruct(reader.events, found, key, inName)
      decreases |reader.events|
    {
      var e := reader.ReadEvent();
      match e
      case None => return None;
      case Some(Start(tag)) =>
        if tag == "name" {
          inName := true;
        } else if tag == "value" {
          var v := ParseValueFrom(reader);
          if v.None? {
            return None;
          }
          found := Insert(found, Member(key, v.value));
          key := "";
        }
      case Some(Text(t)) =>
        if inName {
          key, inName := Newlines(t), false;
        }
      case Some(End(tag)) =>
        if tag == "struct" {
          return Some(found);
        }
      case Some(Broken) => return None;
      case Some(_) =>
    }
  }

  class Writer {
    var out: string

    constructor ()
      ensures out == ""
    {
      out := "";
    }

    method Push(s: string)
      modifies this
      ensures out == old(out) + s
    {
      out := out + s;
    }

    /** `to_xml`. */
    method Write(v: Value)
      modifies this
      ensures out == old(out) + Xml(v)
      decreases v
    {
      Push(Open("value"));
      WriteInner(v);
      Push(Close("value"));
      Joined(old(out), Open("value"), Inner(v), Close("value"));
    }

    method WriteInner(v: Value)
      modifies this
      ensures out == old(out) + Inner(v)
      decreases v, 0
    {
      match v
      case Null => Push("<nil/>");
      case Bool(b) => Push(Open("boolean") + (if b then "1" else "0") + Close("boolean"));
      case Number(i) => Push(Open("int") + Decimal(i) + Close("int"));
      case Double(digits) => Push(Open("double") + digits + Close("double"));
      case Str(s) => Push(Open("string") + XmlEscape(s) + Close("string"));
      case Array(items) =>
        Push(Open("array") + Open("data"));
        WriteItems(items);
        Push(Close("data"));
        Joined(old(out), Open("array") + Open("data"), XmlItems(items), Close("data"));
        Grouped(old(out), Open("array") + Open("data") + XmlItems(items) + Close("data"), Close("array"));
        Push(Close("array"));
      case Object(members) =>
        Push(Open("struct"));
        WriteMembers(members);
        Push(Close("struct"));
        Joined(old(out), Open("struct"), XmlMembers(members), Close("struct"));
    }

    method WriteItems(items: seq<Value>)
      modifies this
      ensures out == old(out) + XmlItems(items)
      decreases items, 0
    {
      assert items[0..] == items;
      for i := 0 to |items|
        invariant out + XmlItems(items[i..]) == old(out) + XmlItems(items)
      {
        assert items[i..][0] == items[i] && items[i..][1..] == items[i + 1..];
        Grouped(out, Xml(items[i]), XmlItems(items[i + 1..]));
        Write(items[i]);
      }
      assert out + "" == out;
    }

    method WriteMember(m: Member)
      modifies this
      ensures out == old(out) + XmlMember(m.key, Xml(m.value))
      decreases m
    {
      var head := Open("member") + Open("name") + XmlEscape(m.key) + Close("name");
      Push(head);
      Write(m.value);
      Push(Close("member"));
      Joined(old(out), head, Xml(m.value), Close("member"));
    }

    method WriteMembers(members: seq<Member>)
      modifies this
      ensures out == old(out) + XmlMembers(members)
      decreases members, 0
    {
      assert members[0..] == members;
      for i := 0 to |members|
        invariant out + XmlMembers(members[i..]) == old(out) + XmlMembers(members)
      {
        assert members[i..][0] == members[i] && members[i..][1..] == members[i + 1..];
        Grouped(out, XmlMember(members[i].key, Xml(members[i].value)), XmlMembers(members[i + 1..]));
        WriteMember(members[i]);
      }
      assert out + "" == out;
    }
  }

  lemma Grouped(a: string, b: string, c: string)
    ensures a + (b + c) == a + b + c
  {
  }

  lemma Joined(a: string, b: string, c: string, d: string)
    ensures a + b + c + d == a + (b + c + d)
  {
  }

  // ---- Whole calls -------------------------------------------------------------------------

  datatype Call = Call(name: string, params: seq<Value>)

  function ParseCall(es: seq<Token>, name: string, inName: bool, params: seq<Value>): Option<Call>
    decreases |es|
  {
    if es == [] then if name == "" then None else Some(Call(name, params))
    else
      match es[0]
      case Start(tag) =>
        if tag == "methodName" then ParseCall(es[1..], name, true, params)
        else if tag == "value" then
          match ParseValue(es[1..], None, None)
          case None => None
          case Some(p) => ParseCall(p.rest, name, inName, params + [p.value])
        else ParseCall(es[1..], name, inName, params)
      case Text(t) =>
        if inName then ParseCall(es[1..], Newlines(t), false, params) else ParseCall(es[1..], name, inName, params)
      case Broken => None
      case _ => ParseCall(es[1..], name, inName, params)
  }

  method ParseCallText(xml: string) returns (call: Option<Call>)
    ensures call == ParseCall(Tokenize(xml), "", false, [])
  {
    var reader := new Reader(xml);
    var name: string, params: seq<Value>, inName := "", [], false;
    while true
      invariant fresh(reader)
      invariant ParseCall(Tokenize(xml), "", false, []) == ParseCall(reader.events, name, inName, params)
      decreases |reader.events|
    {
      var e := reader.ReadEvent();
      match e
      case None => break;
      case Some(Start(tag)) =>
        if tag == "methodName" {
          inName := true;
        } else if tag == "value" {
          var v := ParseValueFrom(reader);
          if v.None? {
            return None;
          }
          params := params + [v.value];
        }
      case Some(Text(t)) =>
        if inName {
          name, inName := Newlines(t), false;
        }
      case Some(Broken) => return None;
      case Some(_) =>
    }
    call := if name == "" then None else Some(Call(name, params));
  }

  /** The document a client sends for a call. */
  function CallDocument(name: string, params: seq<Value>): string {
    Open("methodCall") + (Open("methodName") + (XmlEscape(name) + (Close("methodName")
    + (Open("params") + (ParamsThen(params, Close("params") + (Close("methodCall") + "")))))))
  }

  function ParamsThen(params: seq<Value>, rest: string): string {
    if params == [] then rest else Open("param") + (Xml(params[0]) + (Close("param") + ParamsThen(params[1..], rest)))
  }

  lemma SkipStart(tag: string, es: seq<Token>, name: string, inName: bool, params: seq<Value>)
    requires tag != "methodName" && tag != "value"
    ensures ParseCall([Start(tag)] + es, name, inName, params) == ParseCall(es, name, inName, params)
  {
  }

  lemma SkipEnd(tag: string, es: seq<Token>, name: string, inName: bool, params: seq<Value>)
    ensures ParseCall([End(tag)] + es, name, inName, params) == ParseCall(es, name, inName, params)
  {
  }

  lemma ParamParses(v: Value, tail: string, name: string, inName: bool, done: seq<Value>)
    requires NoDouble(v)
    ensures ParseCall(Tokenize(Open("param") + (Xml(v) + (Close("param") + tail))), name, inName, done)
         == ParseCall(Tokenize(tail), name, inName, done + [Normal(v)])
  {
    var after := Close("param") + tail;
    OpenToken("param", Xml(v) + after);
    SkipStart("param", Tokenize(Xml(v) + after), name, inName, done);
    ParsePrinted(v, after);
    CloseToken("param", tail);
    SkipEnd("param", Tokenize(tail), name, inName, done + [Normal(v)]);
  }

  lemma {:induction false} ParamsParse(params: seq<Value>, rest: string, name: string, inName: bool, done: seq<Value>)
    requires forall i :: 0 <= i < |params| ==> NoDouble(params[i])
    ensures ParseCall(Tokenize(ParamsThen(params, rest)), name, inName, done)
         == ParseCall(Tokenize(rest), name, inName, done + NormalItems(params))
    decreases |params|
  {
    if params == [] {
      JoinEmpty(done);
    } else {
      var tail := ParamsThen(params[1..], rest);
      var items := NormalItems(params[1..]);
      ParamParses(params[0], tail, name, inName, done);
      ParamsParse(params[1..], rest, name, inName, done + [Normal(params[0])]);
      JoinAssoc(done, [Normal(params[0])], items);
    }
  }

  /** The events of a tagged word, whatever follows. */
  lemma WordTokens(tag: string, name: string, tail: string)
    requires TagWord(tag) && Solid(name)
    ensures Tokenize(Open(tag) + (name + (Close(tag) + tail)))
         == [Start(tag)] + ([Text(name)] + ([End(tag)] + Tokenize(tail)))
  {
    var after := Close(tag) + tail;
    OpenToken(tag, name + after);
    CloseToken(tag, tail);
    NameTokens(name, after);
  }

  lemma NameTokens(name: string, after: string)
    requires Solid(name) && Markup(after)
    ensures Tokenize(name + after) == [Text(name)] + Tokenize(after)
  {
    RunTokens(name, after);
    TrimSolid(name);
  }

  lemma NameIsRead(name: string, es: seq<Token>)
    requires Solid(name)
    ensures ParseCall([Start("methodName")] + ([Text(name)] + es), "", false, []) == ParseCall(es, name, false, [])
  {
    TrimSolid(name);
    Cons(Start("methodName"), [Text(name)] + es);
    Cons(Text(name), es);
  }

  lemma NameParses(name: string, tail: string)
    requires Solid(name)
    ensures ParseCall(Tokenize(Open("methodName") + (name + (Close("methodName") + tail))), "", false, [])
         == ParseCall(Tokenize(tail), name, false, [])
  {
    WordTokens("methodName", name, tail);
    NameIsRead(name, [End("methodName")] + Tokenize(tail));
    SkipEnd("methodName", Tokenize(tail), name, false, []);
  }

  lemma TrailerParses(name: string, params: seq<Value>)
    requires name != ""
    ensures ParseCall(Tokenize(Close("params") + (Close("methodCall") + "")), name, false, params) == Some(Call(name, params))
  {
    CloseToken("methodCall", "");
    CloseToken("params", Close("methodCall") + "");
    SkipEnd("params", Tokenize(Close("methodCall") + ""), name, false, params);
    SkipEnd("methodCall", [], name, false, params);
  }

  lemma OpenSkipped(tag: string, rest: string, name: string, inName: bool, params: seq<Value>)
    requires TagWord(tag) && tag != "methodName" && tag != "value"
    ensures ParseCall(Tokenize(Open(tag) + rest), name, inName, params) == ParseCall(Tokenize(rest), name, inName, params)
  {
    OpenToken(tag, rest);
    SkipStart(tag, Tokenize(rest), name, inName, params);
  }

  lemma HeaderParses(name: string, listing: string, named: string)
    requires Solid(name) && named == Open("methodName") + (name + (Close("methodName") + listing))
    ensures ParseCall(Tokenize(Open("methodCall") + named), "", false, []) == ParseCall(Tokenize(listing), name, false, [])
  {
    OpenSkipped("methodCall", named, "", false, []);
    NameParses(name, listing);
  }

  lemma ListingParses(name: string, params: seq<Value>, trailer: string)
    requires forall i :: 0 <= i < |params| ==> NoDouble(params[i])
    ensures ParseCall(Tokenize(Open("params") + ParamsThen(params, trailer)), name, false, [])
         == ParseCall(Tokenize(trailer), name, false, NormalItems(params))
  {
    OpenSkipped("params", ParamsThen(params, trailer), name, false, []);
    ParamsParse(params, trailer, name, false, []);
    assert [] + NormalItems(params) == NormalItems(params);
  }

  /** A call of a plainly named method is parsed to its name and the normal forms of its parameters, in order. */
  lemma CallParses(name: string, params: seq<Value>)
    requires Solid(name) && PlainLength(name) == |name|
    requires forall i :: 0 <= i < |params| ==> NoDouble(params[i])
    ensures ParseCall(Tokenize(CallDocument(name, params)), "", false, []) == Some(Call(name, NormalItems(params)))
  {
    EscapeIsCharwise(name);
    EscapePlain(name);
    var trailer := Close("params") + (Close("methodCall") + "");
    var listing := Open("params") + ParamsThen(params, trailer);
    HeaderParses(name, listing, Open("methodName") + (name + (Close("methodName") + listing)));
    ListingParses(name, params, trailer);
    TrailerParses(name, NormalItems(params));
  }
}
