/** Parsing inverts printing: through the reader's events, for values nested without bound. */
module XmlRoundTrip {
  import opened Prelude
  import opened XmlTokens
  import opened XmlRpc

  // ---- The events of a printed value, followed by any others ----------------------------------

  function TokensThen(v: Value, es: seq<Token>): seq<Token>
    decreases v
  {
    [Start("value")] + BodyThen(v, [End("value")] + es)
  }

  function BodyThen(v: Value, es: seq<Token>): seq<Token>
    decreases v, 0
  {
    match v
    case Null => [Empty("nil")] + es
    case Bool(b) => [Start("boolean")] + ([Text(if b then "1" else "0")] + ([End("boolean")] + es))
    case Number(i) => [Start("int")] + ([Text(Decimal(i))] + ([End("int")] + es))
    case Double(digits) => [Start("double")] + ([Text(digits)] + ([End("double")] + es))
    case Str(s) => [Start("string")] + (Pieces(s) + ([End("string")] + es))
    case Array(items) => [Start("array")] + ([Start("data")] + ItemsThen(items, [End("data")] + ([End("array")] + es)))
    case Object(members) => [Start("struct")] + MembersThen(members, [End("struct")] + es)
  }

  function ItemsThen(items: seq<Value>, es: seq<Token>): seq<Token>
    decreases items
  {
    if items == [] then es else TokensThen(items[0], ItemsThen(items[1..], es))
  }

  function KeyThen(key: string, es: seq<Token>): seq<Token> {
    [Start("member")] + ([Start("name")] + (Pieces(key) + ([End("name")] + es)))
  }

  function MembersThen(members: seq<Member>, es: seq<Token>): seq<Token>
    decreases members
  {
    if members == [] then es
    else KeyThen(members[0].key, TokensThen(members[0].value, [End("member")] + MembersThen(members[1..], es)))
  }

  /** No double anywhere: floating-point text is not modelled. */
  predicate NoDouble(v: Value)
    decreases v
  {
    match v
    case Double(_) => false
    case Array(items) => forall i :: 0 <= i < |items| ==> NoDouble(items[i])
    case Object(members) => forall i :: 0 <= i < |members| ==> NoDouble(members[i].value)
    case _ => true
  }

  // ---- Parsing those events -----------------------------------------------------------------

  lemma Cons(t: Token, es: seq<Token>)
    ensures ([t] + es)[0] == t && ([t] + es)[1..] == es
  {
  }

  lemma ReadRun(run: string, es: seq<Token>, end: string, out: string)
    ensures ReadText(TextOf(run) + es, end, out) == ReadText(es, end, out + Newlines(Trim(run)))
  {
    if Trim(run) == "" {
      assert TextOf(run) + es == es && out + "" == out;
    } else {
      Cons(Text(Trim(run)), es);
    }
  }

  lemma ResolvesEscape(c: char)
    requires Special(c)
    ensures ResolveRef(RefName(c)) == [c]
  {
  }

  lemma PiecesLast(s: string)
    requires PlainLength(s) == |s|
    ensures Pieces(s) == TextOf(s) && NormalText(s) == Newlines(Trim(s))
  {
  }

  lemma NormalTextSplit(s: string, n: nat)
    requires n == PlainLength(s) < |s|
    ensures NormalText(s) == Newlines(Trim(s[..n])) + ([s[n]] + NormalText(s[n + 1..]))
  {
    var text := NormalText(s);
  }

  lemma PiecesStep(s: string, n: nat, es: seq<Token>)
    requires n == PlainLength(s) < |s|
    ensures Pieces(s) + es == TextOf(s[..n]) + ([Ref(RefName(s[n]))] + (Pieces(s[n + 1..]) + es))
  {
    PiecesSplit(s, n);
    GroupedJoin(Pieces(s), TextOf(s[..n]), [Ref(RefName(s[n]))], Pieces(s[n + 1..]), es);
  }

  lemma ReadRunThenRef(run: string, c: char, more: seq<Token>, end: string, out: string)
    requires Special(c)
    ensures ReadText(TextOf(run) + ([Ref(RefName(c))] + more), end, out)
         == ReadText(more, end, out + Newlines(Trim(run)) + [c])
  {
    ReadRun(run, [Ref(RefName(c))] + more, end, out);
    Cons(Ref(RefName(c)), more);
    ResolvesEscape(c);
  }

  lemma ReadPiecesStep(s: string, es: seq<Token>, end: string, out: string)
    requires PlainLength(s) < |s|
    ensures var n := PlainLength(s);
            ReadText(Pieces(s) + es, end, out)
            == ReadText(Pieces(s[n + 1..]) + es, end, out + Newlines(Trim(s[..n])) + [s[n]])
  {
    var n := PlainLength(s);
    PiecesStep(s, n, es);
    ReadRunThenRef(s[..n], s[n], Pieces(s[n + 1..]) + es, end, out);
  }

  lemma Flattened<T>(out: seq<T>, x: seq<T>, a: seq<T>, b: seq<T>, c: seq<T>)
    requires x == a + (b + c)
    ensures out + a + b + c == out + x
  {
    JoinAssoc(out, a, b + c);
    JoinAssoc(out + a, b, c);
  }

  lemma ReadEnd(end: string, out: string, rest: seq<Token>)
    ensures ReadText([End(end)] + rest, end, out) == Some(Parsed(out, rest))
  {
  }

  lemma ReadPiecesLast(s: string, end: string, out: string, rest: seq<Token>)
    requires PlainLength(s) == |s|
    ensures ReadText(Pieces(s) + ([End(end)] + rest), end, out) == Some(Parsed(out + NormalText(s), rest))
  {
    PiecesLast(s);
    ReadRun(s, [End(end)] + rest, end, out);
    ReadEnd(end, out + NormalText(s), rest);
  }

  lemma ReadPiecesJoin(s: string, n: nat, next: string, es: seq<Token>, end: string, out: string, rest: seq<Token>)
    requires n == PlainLength(s) < |s| && next == out + Newlines(Trim(s[..n])) + [s[n]]
    requires ReadText(Pieces(s[n + 1..]) + es, end, next) == Some(Parsed(next + NormalText(s[n + 1..]), rest))
    ensures ReadText(Pieces(s) + es, end, out) == Some(Parsed(out + NormalText(s), rest))
  {
    ReadPiecesStep(s, es, end, out);
    NormalTextSplit(s, n);
    Flattened(out, NormalText(s), Newlines(Trim(s[..n])), [s[n]], NormalText(s[n + 1..]));
  }

  lemma {:induction false} ReadPieces(s: string, end: string, out: string, rest: seq<Token>)
    ensures ReadText(Pieces(s) + ([End(end)] + rest), end, out) == Some(Parsed(out + NormalText(s), rest))
    decreases |s|
  {
    var n := PlainLength(s);
    if n == |s| {
      ReadPiecesLast(s, end, out, rest);
    } else {
      var next := out + Newlines(Trim(s[..n])) + [s[n]];
      ReadPieces(s[n + 1..], end, next, rest);
      ReadPiecesJoin(s, n, next, [End(end)] + rest, end, out, rest);
    }
  }

  lemma SkipRun(run: string, es: seq<Token>, members: seq<Member>, key: string)
    ensures ParseStruct(TextOf(run) + es, members, key, false) == ParseStruct(es, members, key, false)
  {
    if Trim(run) == "" {
      assert TextOf(run) + es == es;
    } else {
      Cons(Text(Trim(run)), es);
    }
  }

  lemma SkipRef(name: string, es: seq<Token>, members: seq<Member>, key: string, inName: bool)
    ensures ParseStruct([Ref(name)] + es, members, key, inName) == ParseStruct(es, members, key, inName)
  {
  }

  lemma SkipRunThenRef(run: string, name: string, more: seq<Token>, members: seq<Member>, key: string)
    ensures ParseStruct(TextOf(run) + ([Ref(name)] + more), members, key, false) == ParseStruct(more, members, key, false)
  {
    SkipRun(run, [Ref(name)] + more, members, key);
    SkipRef(name, more, members, key, false);
  }

  /** The events of the key split as run, reference and the rest, with the pieces kept abstract. */
  lemma SkipKeySplit(whole: seq<Token>, run: string, name: string, more: seq<Token>, es: seq<Token>, members: seq<Member>,
                     key: string)
    requires whole == TextOf(run) + ([Ref(name)] + more)
    requires ParseStruct(more, members, key, false) == ParseStruct(es, members, key, false)
    ensures ParseStruct(whole, members, key, false) == ParseStruct(es, members, key, false)
  {
    SkipRunThenRef(run, name, more, members, key);
  }

  lemma {:induction false} SkipKeyRest(k: string, es: seq<Token>, members: seq<Member>, key: string)
    ensures ParseStruct(Pieces(k) + es, members, key, false) == ParseStruct(es, members, key, false)
    decreases |k|
  {
    var n := PlainLength(k);
    if n == |k| {
      PiecesLast(k);
      SkipRun(k, es, members, key);
    } else {
      SkipKeyRest(k[n + 1..], es, members, key);
      PiecesStep(k, n, es);
      SkipKeySplit(Pieces(k) + es, k[..n], RefName(k[n]), Pieces(k[n + 1..]) + es, es, members, key);
    }
  }

  /** Every run of the key is blank, so no text event comes for it. */
  predicate Blank(k: string)
    decreases |k|
  {
    var n := PlainLength(k);
    Trim(k[..n]) == "" && (n == |k| || Blank(k[n + 1..]))
  }

  lemma FirstRun(run: string, es: seq<Token>, members: seq<Member>)
    ensures ParseStruct(TextOf(run) + es, members, "", true)
         == if Trim(run) == "" then ParseStruct(es, members, "", true) else ParseStruct(es, members, Newlines(Trim(run)), false)
  {
    if Trim(run) == "" {
      assert TextOf(run) + es == es;
    } else {
      Cons(Text(Trim(run)), es);
    }
  }

  lemma FirstRunThenRef(run: string, name: string, more: seq<Token>, members: seq<Member>)
    ensures ParseStruct(TextOf(run) + ([Ref(name)] + more), members, "", true)
         == if Trim(run) == "" then ParseStruct(more, members, "", true)
            else ParseStruct(more, members, Newlines(Trim(run)), false)
  {
    FirstRun(run, [Ref(name)] + more, members);
    SkipRef(name, more, members, "", true);
    SkipRef(name, more, members, Newlines(Trim(run)), false);
  }

  lemma ReadKeyStep(k: string, es: seq<Token>, members: seq<Member>)
    requires PlainLength(k) < |k|
    ensures var n := PlainLength(k);
            ParseStruct(Pieces(k) + es, members, "", true)
            == if Trim(k[..n]) == "" then ParseStruct(Pieces(k[n + 1..]) + es, members, "", true)
               else ParseStruct(Pieces(k[n + 1..]) + es, members, Newlines(Trim(k[..n])), false)
  {
    var n := PlainLength(k);
    PiecesStep(k, n, es);
    FirstRunThenRef(k[..n], RefName(k[n]), Pieces(k[n + 1..]) + es, members);
  }

  lemma ReadKeyLast(k: string, es: seq<Token>, members: seq<Member>)
    requires PlainLength(k) == |k|
    ensures ParseStruct(Pieces(k) + es, members, "", true) == ParseStruct(es, members, NormalKey(k), Blank(k))
  {
    PiecesLast(k);
    assert k[..|k|] == k;
    FirstRun(k, es, members);
  }

  lemma {:induction false} ReadKey(k: string, es: seq<Token>, members: seq<Member>)
    ensures ParseStruct(Pieces(k) + es, members, "", true) == ParseStruct(es, members, NormalKey(k), Blank(k))
    decreases |k|
  {
    var n := PlainLength(k);
    if n == |k| {
      ReadKeyLast(k, es, members);
    } else {
      ReadKeyStep(k, es, members);
      if Trim(k[..n]) == "" {
        ReadKey(k[n + 1..], es, members);
      } else {
        SkipKeyRest(k[n + 1..], es, members, NormalKey(k));
      }
    }
  }

  lemma ReadSolid(text: string, end: string, rest: seq<Token>)
    ensures ReadText([Text(text)] + ([End(end)] + rest), end, "") == Some(Parsed(Newlines(text), rest))
  {
    Cons(Text(text), [End(end)] + rest);
    Cons(End(end), rest);
    assert "" + Newlines(text) == Newlines(text);
  }

  lemma ParsesScalar(tag: string, text: string, middle: seq<Token>, rest: seq<Token>)
    requires IsScalar(tag) && ReadText(middle, tag, "") == Some(Parsed(text, [End("value")] + rest))
    ensures ParseValue([Start(tag)] + middle, None, None) == Some(Parsed(Scalar(tag, text), rest))
  {
  }

  lemma {:induction false} TrimSolid(s: string)
    requires Solid(s)
    ensures Trim(s) == s && Newlines(s) == s
  {
    NoLineEnds(s);
  }

  lemma {:induction false} NoLineEnds(s: string)
    requires Without(s, '\r')
    ensures Newlines(s) == s
  {
    if s != "" {
      NoLineEnds(s[1..]);
    }
  }

  lemma ParsesSolid(tag: string, text: string, rest: seq<Token>)
    requires IsScalar(tag) && Solid(text)
    ensures ParseValue([Start(tag)] + ([Text(text)] + ([End(tag)] + ([End("value")] + rest))), None, None)
         == Some(Parsed(Scalar(tag, text), rest))
  {
    TrimSolid(text);
    ReadSolid(text, tag, [End("value")] + rest);
    ParsesScalar(tag, text, [Text(text)] + ([End(tag)] + ([End("value")] + rest)), rest);
  }

  lemma ParsesNumber(i: Int64, rest: seq<Token>)
    ensures ParseValue(BodyThen(Number(i), [End("value")] + rest), None, None) == Some(Parsed(Number(i), rest))
  {
    DecimalIsSolid(i);
    TrimSolid(Decimal(i));
    ReadsDecimal(i);
    ParsesSolid("int", Decimal(i), rest);
  }

  lemma ParsesText(s: string, rest: seq<Token>)
    ensures ParseValue(BodyThen(Str(s), [End("value")] + rest), None, None) == Some(Parsed(Str(NormalText(s)), rest))
  {
    ReadPieces(s, "string", "", [End("value")] + rest);
    assert "" + NormalText(s) == NormalText(s);
    ParsesScalar("string", NormalText(s), Pieces(s) + ([End("string")] + ([End("value")] + rest)), rest);
  }

  lemma {:induction false} ParsesBody(v: Value, rest: seq<Token>)
    requires NoDouble(v)
    ensures ParseValue(BodyThen(v, [End("value")] + rest), None, None) == Some(Parsed(Normal(v), rest))
    decreases v, 0
  {
    match v
    case Null =>
      ParsesNil(rest);
    case Bool(b) =>
      TrimSolid(if b then "1" else "0");
      ParsesSolid("boolean", if b then "1" else "0", rest);
    case Number(i) =>
      ParsesNumber(i, rest);
    case Str(s) =>
      ParsesText(s, rest);
    case Array(items) =>
      ParsesItems(items, [], [End("value")] + rest);
      assert [] + NormalItems(items) == NormalItems(items);
      ParsesArray(ItemsThen(items, [End("data")] + ([End("array")] + ([End("value")] + rest))), NormalItems(items), rest);
    case Object(members) =>
      ParsesMembers(members, [], false, [End("value")] + rest);
      ParsesObject(MembersThen(members, [End("struct")] + ([End("value")] + rest)), NormalMembers([], members), rest);
  }

  lemma ParsesNil(rest: seq<Token>)
    ensures ParseValue([Empty("nil")] + ([End("value")] + rest), None, None) == Some(Parsed(Str(""), rest))
  {
  }

  lemma ParsesArray(inside: seq<Token>, items: seq<Value>, rest: seq<Token>)
    requires ParseArray(inside, []) == Some(Parsed(items, [End("value")] + rest))
    ensures ParseValue([Start("array")] + ([Start("data")] + inside), None, None) == Some(Parsed(Array(items), rest))
  {
  }

  lemma ParsesObject(inside: seq<Token>, members: seq<Member>, rest: seq<Token>)
    requires ParseStruct(inside, [], "", false) == Some(Parsed(members, [End("value")] + rest))
    ensures ParseValue([Start("struct")] + inside, None, None) == Some(Parsed(Object(members), rest))
  {
  }

  lemma ParsesOneItem(v: Value, more: seq<Token>, done: seq<Value>)
    requires ParseValue(BodyThen(v, [End("value")] + more), None, None) == Some(Parsed(Normal(v), more))
    ensures ParseArray(TokensThen(v, more), done) == ParseArray(more, done + [Normal(v)])
  {
  }

  lemma ParsesNoItems(done: seq<Value>, rest: seq<Token>)
    ensures ParseArray([End("data")] + ([End("array")] + rest), done) == Some(Parsed(done, rest))
  {
  }

  lemma {:induction false} ParsesItems(items: seq<Value>, done: seq<Value>, rest: seq<Token>)
    requires forall i :: 0 <= i < |items| ==> NoDouble(items[i])
    ensures ParseArray(ItemsThen(items, [End("data")] + ([End("array")] + rest)), done)
         == Some(Parsed(done + NormalItems(items), rest))
    decreases items
  {
    var after := [End("data")] + ([End("array")] + rest);
    if items == [] {
      ParsesNoItems(done, rest);
      JoinEmpty(done);
    } else {
      var v, more := items[0], ItemsThen(items[1..], after);
      ParsesBody(v, more);
      ParsesOneItem(v, more, done);
      ParsesItems(items[1..], done + [Normal(v)], rest);
      var values := NormalItems(items[1..]);
      JoinAssoc(done, [Normal(v)], values);
    }
  }

  lemma ParsesKey(key: string, es: seq<Token>, members: seq<Member>, inName: bool)
    ensures ParseStruct(KeyThen(key, es), members, "", inName) == ParseStruct(es, members, NormalKey(key), Blank(key))
  {
    var after := [End("name")] + es;
    Cons(End("name"), es);
    ReadKey(key, after, members);
    Cons(Start("name"), Pieces(key) + after);
    Cons(Start("member"), [Start("name")] + (Pieces(key) + after));
  }

  lemma {:induction false} ParsesMembers(members: seq<Member>, done: seq<Member>, inName: bool, rest: seq<Token>)
    requires forall i :: 0 <= i < |members| ==> NoDouble(members[i].value)
    ensures ParseStruct(MembersThen(members, [End("struct")] + rest), done, "", inName)
         == Some(Parsed(NormalMembers(done, members), rest))
    decreases members
  {
    var after := [End("struct")] + rest;
    if members == [] {
      Cons(End("struct"), rest);
    } else {
      var key, v := members[0].key, members[0].value;
      var more := MembersThen(members[1..], after);
      var valued := TokensThen(v, [End("member")] + more);
      ParsesKey(key, valued, done, inName);
      ParsesBody(v, [End("member")] + more);
      Cons(Start("value"), BodyThen(v, [End("value")] + ([End("member")] + more)));
      Cons(End("member"), more);
      ParsesMembers(members[1..], Insert(done, Member(NormalKey(key), Normal(v))), Blank(key), rest);
    }
  }

  // ---- The reader's events of a printed value ------------------------------------------------

  predicate NameChar(c: char) {
    'a' <= c <= 'z' || 'A' <= c <= 'Z' || '0' <= c <= '9'
  }

  predicate TagWord(name: string) {
    name != "" && forall i :: 0 <= i < |name| ==> NameChar(name[i])
  }

  lemma {:induction false} TagNameIs(name: string)
    requires forall i :: 0 <= i < |name| ==> NameChar(name[i])
    ensures TagName(name) == name
  {
    if name != "" {
      TagNameIs(name[1..]);
    }
  }

  lemma OpenToken(name: string, rest: string)
    requires TagWord(name)
    ensures Tokenize(Open(name) + rest) == [Start(name)] + Tokenize(rest)
  {
    TagNameIs(name);
    TagToken(name, rest);
  }

  lemma CloseToken(name: string, rest: string)
    requires TagWord(name)
    ensures Tokenize(Close(name) + rest) == [End(name)] + Tokenize(rest)
    ensures Markup(Close(name) + rest)
  {
    var body := "/" + name;
    assert body[1..] == name && Without(body, '>');
    assert Close(name) == "<" + body + ">";
    TagToken(body, rest);
  }

  lemma Enclosed(open: string, middle: string, close: string, rest: string)
    ensures open + middle + close + rest == open + (middle + (close + rest))
  {
  }

  lemma Wrapped(tag: string, middle: string, inside: seq<Token>, rest: string)
    requires TagWord(tag) && Tokenize(middle + (Close(tag) + rest)) == inside
    ensures Tokenize(Open(tag) + middle + Close(tag) + rest) == [Start(tag)] + inside
  {
    Enclosed(Open(tag), middle, Close(tag), rest);
    OpenToken(tag, middle + (Close(tag) + rest));
  }

  lemma SolidTokens(tag: string, text: string, rest: string)
    requires TagWord(tag) && Solid(text)
    ensures Tokenize(Open(tag) + text + Close(tag) + rest)
         == [Start(tag)] + ([Text(text)] + ([End(tag)] + Tokenize(rest)))
  {
    CloseToken(tag, rest);
    TrimSolid(text);
    RunTokens(text, Close(tag) + rest);
    Wrapped(tag, text, [Text(text)] + ([End(tag)] + Tokenize(rest)), rest);
  }

  lemma EscapedText(s: string, tag: string, rest: string)
    requires TagWord(tag)
    ensures Tokenize(XmlEscape(s) + (Close(tag) + rest)) == Pieces(s) + ([End(tag)] + Tokenize(rest))
  {
    EscapeIsCharwise(s);
    CloseToken(tag, rest);
    EscapedTokens(s, Close(tag) + rest);
  }

  lemma TextTokens(tag: string, s: string, rest: string)
    requires TagWord(tag)
    ensures Tokenize(Open(tag) + XmlEscape(s) + Close(tag) + rest)
         == [Start(tag)] + (Pieces(s) + ([End(tag)] + Tokenize(rest)))
  {
    EscapedText(s, tag, rest);
    Wrapped(tag, XmlEscape(s), Pieces(s) + ([End(tag)] + Tokenize(rest)), rest);
  }

  lemma TwiceWrapped(outer: string, inner: string, middle: string, inside: seq<Token>, rest: string)
    requires TagWord(outer) && TagWord(inner)
    requires Tokenize(middle + (Close(inner) + (Close(outer) + rest))) == inside
    ensures Tokenize(Open(outer) + Open(inner) + middle + Close(inner) + Close(outer) + rest)
         == [Start(outer)] + ([Start(inner)] + inside)
  {
    var a, b, c, d := Open(outer), Open(inner), Close(inner), Close(outer);
    Enclosed(a + b + middle, c, d, rest);
    Enclosed(a, b, middle, c + (d + rest));
    OpenToken(outer, b + (middle + (c + (d + rest))));
    OpenToken(inner, middle + (c + (d + rest)));
  }

  lemma TwoCloseTokens(inner: string, outer: string, rest: string)
    requires TagWord(inner) && TagWord(outer)
    ensures Tokenize(Close(inner) + (Close(outer) + rest)) == [End(inner)] + ([End(outer)] + Tokenize(rest))
  {
    CloseToken(outer, rest);
    CloseToken(inner, Close(outer) + rest);
  }

  lemma NilToken(rest: string)
    ensures Tokenize("<nil/>" + rest) == [Empty("nil")] + Tokenize(rest)
  {
    assert "<nil/>" == "<" + "nil/" + ">";
    assert "nil/"[..3] == "nil";
    TagNameIs("nil");
    TagToken("nil/", rest);
  }

  lemma {:induction false} TokensOfXml(v: Value, rest: string)
    requires NoDouble(v)
    ensures Tokenize(Xml(v) + rest) == TokensThen(v, Tokenize(rest))
    decreases v
  {
    CloseToken("value", rest);
    TokensOfInner(v, Close("value") + rest);
    Wrapped("value", Inner(v), BodyThen(v, [End("value")] + Tokenize(rest)), rest);
  }

  lemma {:induction false} TokensOfInner(v: Value, rest: string)
    requires NoDouble(v)
    ensures Tokenize(Inner(v) + rest) == BodyThen(v, Tokenize(rest))
    decreases v, 0
  {
    match v
    case Null =>
      NilToken(rest);
    case Bool(b) =>
      SolidTokens("boolean", if b then "1" else "0", rest);
    case Number(i) =>
      DecimalIsSolid(i);
      SolidTokens("int", Decimal(i), rest);
    case Str(s) =>
      TextTokens("string", s, rest);
    case Array(items) =>
      TokensOfArray("array", "data", items, rest);
    case Object(members) =>
      TokensOfObject("struct", members, rest);
  }

  lemma {:induction false} TokensOfArray(outer: string, inner: string, items: seq<Value>, rest: string)
    requires TagWord(outer) && TagWord(inner) && forall i :: 0 <= i < |items| ==> NoDouble(items[i])
    ensures Tokenize(Open(outer) + Open(inner) + XmlItems(items) + Close(inner) + Close(outer) + rest)
         == [Start(outer)] + ([Start(inner)] + ItemsThen(items, [End(inner)] + ([End(outer)] + Tokenize(rest))))
    decreases items, 1
  {
    TokensOfXmlItems(items, Close(inner) + (Close(outer) + rest));
    TwoCloseTokens(inner, outer, rest);
    TwiceWrapped(outer, inner, XmlItems(items), ItemsThen(items, [End(inner)] + ([End(outer)] + Tokenize(rest))), rest);
  }

  lemma {:induction false} TokensOfObject(tag: string, members: seq<Member>, rest: string)
    requires TagWord(tag) && forall i :: 0 <= i < |members| ==> NoDouble(members[i].value)
    ensures Tokenize(Open(tag) + XmlMembers(members) + Close(tag) + rest)
         == [Start(tag)] + MembersThen(members, [End(tag)] + Tokenize(rest))
    decreases members, 1
  {
    TokensOfXmlMembers(members, Close(tag) + rest);
    CloseToken(tag, rest);
    Wrapped(tag, XmlMembers(members), MembersThen(members, [End(tag)] + Tokenize(rest)), rest);
  }

  lemma {:induction false} TokensOfXmlItems(items: seq<Value>, rest: string)
    requires forall i :: 0 <= i < |items| ==> NoDouble(items[i])
    ensures Tokenize(XmlItems(items) + rest) == ItemsThen(items, Tokenize(rest))
    decreases items, 0
  {
    if items == [] {
      assert "" + rest == rest;
    } else {
      assert Xml(items[0]) + XmlItems(items[1..]) + rest == Xml(items[0]) + (XmlItems(items[1..]) + rest);
      TokensOfXml(items[0], XmlItems(items[1..]) + rest);
      TokensOfXmlItems(items[1..], rest);
    }
  }

  lemma MemberText(a: string, b: string, k: string, c: string, value: string, d: string, rest: string)
    ensures a + b + k + c + value + d + rest == a + (b + (k + (c + (value + (d + rest)))))
  {
  }

  lemma KeyedTokens(member: string, name: string, key: string, value: string, rest: string)
    requires TagWord(member) && TagWord(name)
    ensures Tokenize(Open(member) + Open(name) + XmlEscape(key) + Close(name) + value + Close(member) + rest)
         == [Start(member)] + ([Start(name)] + (Pieces(key) + ([End(name)] + Tokenize(value + (Close(member) + rest)))))
  {
    var after := value + (Close(member) + rest);
    MemberText(Open(member), Open(name), XmlEscape(key), Close(name), value, Close(member), rest);
    OpenToken(member, Open(name) + (XmlEscape(key) + (Close(name) + after)));
    OpenToken(name, XmlEscape(key) + (Close(name) + after));
    EscapedText(key, name, after);
  }

  lemma TokensOfKey(key: string, value: string, after: seq<Token>, rest: string)
    requires Tokenize(value + (Close("member") + rest)) == after
    ensures Tokenize(XmlMember(key, value) + rest) == KeyThen(key, after)
  {
    KeyedTokens("member", "name", key, value, rest);
  }

  lemma {:induction false} TokensOfMember(m: Member, tail: string)
    requires NoDouble(m.value)
    ensures Tokenize(XmlMember(m.key, Xml(m.value)) + tail)
         == KeyThen(m.key, TokensThen(m.value, [End("member")] + Tokenize(tail)))
    decreases m
  {
    CloseToken("member", tail);
    TokensOfXml(m.value, Close("member") + tail);
    TokensOfKey(m.key, Xml(m.value), TokensThen(m.value, [End("member")] + Tokenize(tail)), tail);
  }

  lemma {:induction false} TokensOfXmlMembers(members: seq<Member>, rest: string)
    requires forall i :: 0 <= i < |members| ==> NoDouble(members[i].value)
    ensures Tokenize(XmlMembers(members) + rest) == MembersThen(members, Tokenize(rest))
    decreases members, 0
  {
    if members == [] {
      assert "" + rest == rest;
    } else {
      var head := XmlMember(members[0].key, Xml(members[0].value));
      assert head + XmlMembers(members[1..]) + rest == head + (XmlMembers(members[1..]) + rest);
      TokensOfMember(members[0], XmlMembers(members[1..]) + rest);
      TokensOfXmlMembers(members[1..], rest);
    }
  }

  /**
   * Printing a value, whatever follows it in the document, and parsing what the reader makes of it gives the
   * value's normal form and leaves the events of the rest.
   */
  lemma ParsePrinted(v: Value, rest: string)
    requires NoDouble(v)
    ensures var es := Tokenize(Xml(v) + rest);
            && es != [] && es[0] == Start("value")
            && ParseValue(es[1..], None, None) == Some(Parsed(Normal(v), Tokenize(rest)))
  {
    TokensOfXml(v, rest);
    Cons(Start("value"), BodyThen(v, [End("value")] + Tokenize(rest)));
    ParsesBody(v, Tokenize(rest));
  }

  // ---- Exactly which values survive -------------------------------------------------------------

  /** No space at either end and no carriage return. */
  predicate CleanRun(r: string) {
    Trim(r) == r && Without(r, '\r')
  }

  /** Every run between escaped characters is clean. */
  predicate CleanText(s: string)
    decreases |s|
  {
    var n := PlainLength(s);
    CleanRun(s[..n]) && (n == |s| || CleanText(s[n + 1..]))
  }

  /** A key must also contain nothing that is escaped. */
  predicate CleanKey(k: string) {
    PlainLength(k) == |k| && CleanRun(k)
  }

  predicate Clean(v: Value)
    decreases v
  {
    match v
    case Null => false
    case Str(s) => CleanText(s)
    case Array(items) => forall i :: 0 <= i < |items| ==> Clean(items[i])
    case Object(members) => forall i :: 0 <= i < |members| ==> CleanKey(members[i].key) && Clean(members[i].value)
    case _ => true
  }

  predicate Ascending(members: seq<Member>) {
    forall i, k :: 0 <= i < k < |members| ==> Less(members[i].key, members[k].key)
  }

  /** Objects are maps kept in key order, at every level. */
  predicate KeyOrdered(v: Value)
    decreases v
  {
    match v
    case Array(items) => forall i :: 0 <= i < |items| ==> KeyOrdered(items[i])
    case Object(members) => Ascending(members) && forall i :: 0 <= i < |members| ==> KeyOrdered(members[i].value)
    case _ => true
  }

  lemma {:induction false} TrimEndClean(s: string)
    ensures TrimEnd(TrimEnd(s)) == TrimEnd(s)
    ensures |TrimEnd(s)| <= |s| && TrimEnd(s) == s[..|TrimEnd(s)|]
  {
    if s != "" && IsSpace(s[|s| - 1]) {
      TrimEndClean(s[..|s| - 1]);
    }
  }

  lemma {:induction false} TrimStartKeepsEnd(s: string)
    ensures |TrimStart(s)| <= |s| && TrimStart(s) == s[|s| - |TrimStart(s)|..]
    ensures TrimStart(s) != "" ==> !IsSpace(TrimStart(s)[0])
  {
    if s != "" && IsSpace(s[0]) {
      TrimStartKeepsEnd(s[1..]);
    }
  }

  lemma {:induction false} TrimEndEdge(s: string)
    ensures TrimEnd(s) != "" ==> !IsSpace(TrimEnd(s)[|TrimEnd(s)| - 1])
  {
    if s != "" && IsSpace(s[|s| - 1]) {
      TrimEndEdge(s[..|s| - 1]);
    }
  }

  predicate Edged(s: string) {
    s != "" ==> !IsSpace(s[0]) && !IsSpace(s[|s| - 1])
  }

  lemma TrimMeans(s: string)
    ensures Edged(s) <==> Trim(s) == s
    ensures Edged(Trim(s))
    ensures forall i :: 0 <= i < |Trim(s)| ==> Trim(s)[i] in s
  {
    TrimStartKeepsEnd(s);
    TrimEndClean(TrimStart(s));
    TrimEndEdge(TrimStart(s));
  }

  lemma {:induction false} NewlinesCharacters(s: string)
    ensures Without(Newlines(s), '\r')
    ensures forall i :: 0 <= i < |Newlines(s)| ==> Newlines(s)[i] in s || Newlines(s)[i] == '\n'
    decreases |s|
  {
    if s != "" {
      NewlinesCharacters(if s[0] == '\r' && |s| > 1 && s[1] == '\n' then s[2..] else s[1..]);
    }
  }

  lemma {:induction false} NewlinesKeepEdges(s: string)
    ensures s != "" ==> Newlines(s) != ""
    ensures s != "" && !IsSpace(s[0]) ==> Newlines(s)[0] == s[0]
    ensures s != "" && !IsSpace(s[|s| - 1]) ==> Newlines(s)[|Newlines(s)| - 1] == s[|s| - 1]
    decreases |s|
  {
    if s != "" {
      NewlinesKeepEdges(if s[0] == '\r' && |s| > 1 && s[1] == '\n' then s[2..] else s[1..]);
    }
  }

  /** What a run becomes is clean, and a clean run stays as it is. */
  lemma NormalRun(run: string)
    requires PlainLength(run) == |run|
    ensures CleanRun(Newlines(Trim(run))) && PlainLength(Newlines(Trim(run))) == |Newlines(Trim(run))|
    ensures CleanRun(run) ==> Newlines(Trim(run)) == run
    ensures Newlines(Trim(run)) == "" <==> Trim(run) == ""
  {
    var t := Trim(run);
    TrimMeans(run);
    NewlinesCharacters(t);
    NewlinesKeepEdges(t);
    TrimMeans(Newlines(t));
    if CleanRun(run) {
      NoLineEnds(run);
    }
    assert forall i :: 0 <= i < |Newlines(t)| ==> !Special(Newlines(t)[i]);
  }

  lemma {:induction false} PlainPrefix(run: string, c: char, tail: string)
    requires PlainLength(run) == |run| && Special(c)
    ensures PlainLength(run + ([c] + tail)) == |run|
  {
    if run == "" {
      assert run + ([c] + tail) == [c] + tail;
    } else {
      assert run[1..] + ([c] + tail) == (run + ([c] + tail))[1..];
      PlainPrefix(run[1..], c, tail);
    }
  }

  lemma {:induction false} PlainTake(s: string)
    ensures var n := PlainLength(s); PlainLength(s[..n]) == |s[..n]|
  {
  }

  lemma CleanJoin(run: string, c: char, tail: string)
    requires PlainLength(run) == |run| && CleanRun(run) && Special(c) && CleanText(tail)
    ensures CleanText(run + ([c] + tail))
  {
    PlainPrefix(run, c, tail);
    JoinAround(run, c, tail);
    CleanAt(run + ([c] + tail), |run|);
  }

  lemma CleanAt(whole: string, n: nat)
    requires n == PlainLength(whole) < |whole| && CleanRun(whole[..n]) && CleanText(whole[n + 1..])
    ensures CleanText(whole)
  {
    var clean := CleanText(whole);
  }

  lemma CleanAlone(run: string)
    requires PlainLength(run) == |run| && CleanRun(run)
    ensures CleanText(run)
  {
    assert run[..|run|] == run;
  }

  lemma {:induction false} NormalTextIsClean(s: string)
    ensures CleanText(NormalText(s))
    decreases |s|
  {
    var n := PlainLength(s);
    var run := Newlines(Trim(s[..n]));
    PlainTake(s);
    NormalRun(s[..n]);
    if n == |s| {
      PiecesLast(s);
      assert s[..n] == s;
      CleanAlone(run);
    } else {
      NormalTextIsClean(s[n + 1..]);
      NormalTextSplit(s, n);
      CleanJoin(run, s[n], NormalText(s[n + 1..]));
    }
  }

  lemma SplitAt(s: string, n: nat)
    requires n < |s|
    ensures s == s[..n] + ([s[n]] + s[n + 1..])
  {
  }

  lemma CleanTextStep(s: string)
    requires PlainLength(s) < |s| && CleanText(s) && NormalText(s[PlainLength(s) + 1..]) == s[PlainLength(s) + 1..]
    ensures NormalText(s) == s
  {
    var n := PlainLength(s);
    PlainTake(s);
    NormalRun(s[..n]);
    NormalTextSplit(s, n);
    SplitAt(s, n);
  }

  lemma {:induction false} CleanTextStays(s: string)
    requires CleanText(s)
    ensures NormalText(s) == s
    decreases |s|
  {
    if PlainLength(s) == |s| {
      assert s[..|s|] == s;
      NormalRun(s);
      PiecesLast(s);
    } else {
      CleanTextStays(s[PlainLength(s) + 1..]);
      CleanTextStep(s);
    }
  }

  lemma {:induction false} NormalKeyIsClean(k: string)
    ensures CleanKey(NormalKey(k))
    ensures CleanKey(k) ==> NormalKey(k) == k
    decreases |k|
  {
    var n := PlainLength(k);
    PlainTake(k);
    NormalRun(k[..n]);
    if n == |k| {
      assert k[..n] == k;
    } else {
      NormalKeyIsClean(k[n + 1..]);
    }
  }

  predicate CleanMembers(members: seq<Member>) {
    forall i :: 0 <= i < |members| ==> CleanKey(members[i].key) && Clean(members[i].value)
  }

  lemma {:induction false} InsertKeepsClean(members: seq<Member>, m: Member)
    requires CleanMembers(members) && CleanKey(m.key) && Clean(m.value)
    ensures CleanMembers(Insert(members, m))
  {
    if members != [] && members[0].key != m.key && !Less(m.key, members[0].key) {
      InsertKeepsClean(members[1..], m);
    }
  }

  /** Whatever is printed, what parsing gives back is clean. */
  lemma {:induction false} NormalIsClean(v: Value)
    ensures Clean(Normal(v))
    decreases v
  {
    match v
    case Null => NormalTextIsClean("");
    case Str(s) => NormalTextIsClean(s);
    case Array(items) => NormalItemsAreClean(items);
    case Object(members) => NormalMembersAreClean([], members);
    case _ =>
  }

  lemma {:induction false} NormalItemsAreClean(items: seq<Value>)
    ensures forall i :: 0 <= i < |NormalItems(items)| ==> Clean(NormalItems(items)[i])
    decreases items
  {
    if items != [] {
      NormalIsClean(items[0]);
      NormalItemsAreClean(items[1..]);
    }
  }

  lemma {:induction false} NormalMembersAreClean(done: seq<Member>, members: seq<Member>)
    requires CleanMembers(done)
    ensures CleanMembers(NormalMembers(done, members))
    decreases members
  {
    if members != [] {
      NormalKeyIsClean(members[0].key);
      NormalIsClean(members[0].value);
      var m := Member(NormalKey(members[0].key), Normal(members[0].value));
      InsertKeepsClean(done, m);
      NormalMembersAreClean(Insert(done, m), members[1..]);
    }
  }

  lemma {:induction false} LessIsStrict(a: string, b: string)
    requires Less(a, b)
    ensures a != b && !Less(b, a)
  {
    if a != "" && a[0] == b[0] {
      LessIsStrict(a[1..], b[1..]);
    }
  }

  lemma {:induction false} InsertLast(members: seq<Member>, m: Member)
    requires forall i :: 0 <= i < |members| ==> Less(members[i].key, m.key)
    ensures Insert(members, m) == members + [m]
  {
    if members != [] {
      LessIsStrict(members[0].key, m.key);
      InsertLast(members[1..], m);
    }
  }

  lemma {:induction false} CleanStays(v: Value)
    requires Clean(v) && KeyOrdered(v)
    ensures Normal(v) == v
    decreases v
  {
    match v
    case Str(s) => CleanTextStays(s);
    case Array(items) => CleanItemsStay(items);
    case Object(members) =>
      assert [] + members == members;
      CleanMembersStay([], members);
    case _ =>
  }

  lemma {:induction false} CleanItemsStay(items: seq<Value>)
    requires forall i :: 0 <= i < |items| ==> Clean(items[i]) && KeyOrdered(items[i])
    ensures NormalItems(items) == items
    decreases items
  {
    if items != [] {
      CleanStays(items[0]);
      CleanItemsStay(items[1..]);
    }
  }

  lemma {:induction false} CleanMembersStay(done: seq<Member>, members: seq<Member>)
    requires CleanMembers(members) && Ascending(done + members)
    requires forall i :: 0 <= i < |members| ==> KeyOrdered(members[i].value)
    ensures NormalMembers(done, members) == done + members
    decreases members
  {
    if members == [] {
      assert done + [] == done;
    } else {
      var m, all := members[0], done + members;
      CleanStays(m.value);
      NormalKeyIsClean(m.key);
      forall i | 0 <= i < |done| ensures Less(done[i].key, m.key) {
        assert all[i] == done[i] && all[|done|] == m;
      }
      InsertLast(done, m);
      assert done + [m] + members[1..] == all;
      CleanMembersStay(done + [m], members[1..]);
    }
  }

  /**
   * Parsing gives a printed value back exactly when it is clean: no null, no carriage return, no space at the edge
   * of a run of text, and nothing that needs escaping in a key.
   */
  lemma RoundTripExactlyWhen(v: Value, rest: string)
    requires NoDouble(v) && KeyOrdered(v)
    ensures var es := Tokenize(Xml(v) + rest);
            && es != [] && es[0] == Start("value")
            && (ParseValue(es[1..], None, None) == Some(Parsed(v, Tokenize(rest))) <==> Clean(v))
  {
    ParsePrinted(v, rest);
    NormalIsClean(v);
    if Clean(v) {
      CleanStays(v);
    }
  }
}
