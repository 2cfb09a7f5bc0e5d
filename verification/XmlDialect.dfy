/** What clients may send that the printer never writes: other tags, untyped text, references, repeated keys. */
module XmlDialect {
  import opened Prelude
  import opened XmlTokens
  import opened XmlRpc
  import opened XmlRoundTrip
  import opened XmlReader

  // ---- Numbers -----------------------------------------------------------------------------

  /** Every run of digits is a number and nothing else is; leading zeros do not count. */
  lemma {:induction false} ReadsExactlyNumerals(s: string)
    ensures ReadDigits(s).Some? <==> Numeral(s)
    decreases |s|
  {
    if s != "" {
      var front, last := s[..|s| - 1], s[|s| - 1];
      FrontAndLast(s);
      assert DigitValue(last).Some? <==> '0' <= last <= '9';
      if |s| > 1 {
        ReadsExactlyNumerals(front);
        assert Numeral(s) <==> Numeral(front) && '0' <= last <= '9';
      }
    }
  }

  lemma {:induction false} LeadingZero(s: string)
    requires s != ""
    ensures ReadDigits("0" + s) == ReadDigits(s)
    decreases |s|
  {
    var t, front, last := "0" + s, s[..|s| - 1], s[|s| - 1];
    assert t[..|t| - 1] == "0" + front && t[|t| - 1] == last;
    if |s| > 1 {
      LeadingZero(front);
    } else {
      assert "0" + front == "0" && ReadDigits("0") == Some(0);
    }
  }

  /** An integer is digits, or digits behind one sign, and fits 64 bits. */
  lemma IntegerTextMeans(s: string, digits: string, n: int)
    requires Numeral(digits) && ReadDigits(digits) == Some(n)
    ensures s == digits ==> ParseInt(s) == if n <= 0x7FFF_FFFF_FFFF_FFFF then Some(n) else None
    ensures s != "" && s[0] == '+' && s[1..] == digits ==> ParseInt(s) == if n <= 0x7FFF_FFFF_FFFF_FFFF then Some(n) else None
    ensures s != "" && s[0] == '-' && s[1..] == digits ==> ParseInt(s) == if n <= 0x8000_0000_0000_0000 then Some(-n) else None
  {
  }

  /** Any other text is no integer. */
  lemma NoOtherIntegers(s: string)
    requires ParseInt(s).Some?
    ensures s != "" && (Numeral(s) || ((s[0] == '+' || s[0] == '-') && Numeral(s[1..])))
  {
    ReadsExactlyNumerals(if s[0] == '+' || s[0] == '-' then s[1..] else s);
  }

  // ---- Text --------------------------------------------------------------------------------

  /** Both forms of line end become one line feed. */
  lemma {:induction false} NewlinesMeans(a: string, b: string)
    requires Without(a, '\r')
    ensures Newlines(a + ("\r\n" + b)) == a + ("\n" + Newlines(b))
    ensures b == "" || b[0] != '\n' ==> Newlines(a + ("\r" + b)) == a + ("\n" + Newlines(b))
    decreases |a|
  {
    if a == "" {
      JoinEmpty("\r\n" + b);
      JoinEmpty("\r" + b);
      JoinEmpty("\n" + Newlines(b));
      assert ("\r\n" + b)[2..] == b && ("\r" + b)[1..] == b;
    } else {
      NewlinesMeans(a[1..], b);
      JoinTail(a, "\r\n" + b);
      JoinTail(a, "\r" + b);
      HeadAndRest(a);
      JoinAssoc([a[0]], a[1..], "\n" + Newlines(b));
    }
  }

  predicate AllSpace(s: string) {
    forall i :: 0 <= i < |s| ==> IsSpace(s[i])
  }

  lemma {:induction false} NoSpaceJoin(a: string, b: string)
    ensures NoSpace(a + b) == NoSpace(a) + NoSpace(b)
  {
    if a == "" {
      JoinEmpty(b);
    } else {
      NoSpaceJoin(a[1..], b);
      JoinTail(a, b);
      JoinAssoc(if IsSpace(a[0]) then "" else [a[0]], NoSpace(a[1..]), NoSpace(b));
    }
  }

  /** Text sent in pieces, with any space between them, is the pieces joined. */
  lemma {:induction false} NoSpaceRejoins(piece: string, gap: string, rest: string)
    requires Solid(piece) && AllSpace(gap)
    ensures NoSpace(piece + (gap + rest)) == piece + NoSpace(rest)
  {
    NoSpaceJoin(piece, gap + rest);
    NoSpaceJoin(gap, rest);
    SolidStays(piece);
    SpaceGoes(gap);
    JoinEmpty(NoSpace(rest));
  }

  lemma {:induction false} SolidStays(s: string)
    requires forall i :: 0 <= i < |s| ==> !IsSpace(s[i])
    ensures NoSpace(s) == s
  {
    if s != "" {
      SolidStays(s[1..]);
    }
  }

  lemma {:induction false} SpaceGoes(s: string)
    requires AllSpace(s)
    ensures NoSpace(s) == ""
  {
    if s != "" {
      SpaceGoes(s[1..]);
    }
  }

  // ---- References ----------------------------------------------------------------------------

  function HexDigit(n: nat): char
    requires n < 16
  {
    "0123456789abcdef"[n]
  }

  function HexDigits(n: nat): string {
    if n < 16 then [HexDigit(n)] else HexDigits(n / 16) + [HexDigit(n % 16)]
  }

  lemma OneMoreHexDigit(s: string, n: nat, d: nat)
    requires d < 16 && ReadHex(s) == Some(n) && s != ""
    ensures ReadHex(s + [HexDigit(d)]) == Some(16 * n + d)
  {
    var t := s + [HexDigit(d)];
    assert t[..|t| - 1] == s && t[|t| - 1] == HexDigit(d);
    assert HexValue(HexDigit(d)) == Some(d);
  }

  lemma {:induction false} ReadsHexDigits(n: nat)
    ensures ReadHex(HexDigits(n)) == Some(n) && HexDigits(n) != ""
  {
    if n < 16 {
      assert HexValue(HexDigit(n)) == Some(n);
    } else {
      ReadsHexDigits(n / 16);
      OneMoreHexDigit(HexDigits(n / 16), n / 16, n % 16);
    }
  }

  predicate ScalarCode(n: nat) {
    0 < n < 0xD800 || 0xE000 <= n < 0x11_0000
  }

  /** A character reference, decimal or hexadecimal, is its character. */
  lemma CharacterReference(n: nat)
    requires ScalarCode(n)
    ensures ResolveRef("#" + Digits(n)) == [n as char] == ResolveRef("#x" + HexDigits(n))
  {
    ReadsDigits(n);
    ReadsHexDigits(n);
    assert ("#" + Digits(n))[1..] == Digits(n);
    assert ("#x" + HexDigits(n))[2..] == HexDigits(n);
  }

  /** The five named references resolve, and any other name stays as it was written. */
  lemma NamedReference(name: string)
    requires name != "" && name[0] != '#'
    ensures ResolveRef(name) == match name
                                case "lt" => "<"
                                case "gt" => ">"
                                case "amp" => "&"
                                case "apos" => "'"
                                case "quot" => "\""
                                case _ => "&" + name + ";"
  {
  }

  // ---- Typed values -----------------------------------------------------------------------------

  /** A value with one typed child, and what follows it. */
  function Typed(tag: string, text: string, rest: string): string {
    Open("value") + (Open(tag) + XmlEscape(text) + Close(tag) + (Close("value") + rest))
  }

  function Untyped(text: string, rest: string): string {
    Open("value") + (XmlEscape(text) + (Close("value") + rest))
  }

  /** The document starts with a value that parses to `v` and leaves what follows it. */
  predicate Reads(document: string, v: Value, rest: string) {
    var es := Tokenize(document);
    es != [] && es[0] == Start("value") && ParseValue(es[1..], None, None) == Some(Parsed(v, Tokenize(rest)))
  }

  lemma ReadsScalar(tag: string, text: string, rest: string)
    requires TagWord(tag) && IsScalar(tag)
    ensures Reads(Typed(tag, text, rest), Scalar(tag, NormalText(text)), rest)
  {
    var after := Close("value") + rest;
    CloseToken("value", rest);
    TextTokens(tag, text, after);
    var more := [End("value")] + Tokenize(rest);
    var inside := [Start(tag)] + (Pieces(text) + ([End(tag)] + more));
    OpenToken("value", Open(tag) + XmlEscape(text) + Close(tag) + after);
    Cons(Start("value"), inside);
    ReadPieces(text, tag, "", more);
    assert "" + NormalText(text) == NormalText(text);
    ParsesScalar(tag, NormalText(text), Pieces(text) + ([End(tag)] + more), Tokenize(rest));
  }

  /** The three integer tags mean the same, and text that is no 64-bit integer reads as zero. */
  lemma ReadsIntegers(tag: string, text: string, rest: string)
    requires tag == "int" || tag == "i4" || tag == "i8"
    ensures Reads(Typed(tag, text, rest), Number(ParseInt(Trim(NormalText(text))).GetOr(0)), rest)
  {
    ReadsScalar(tag, text, rest);
  }

  lemma ReadsDecimalTag(tag: string, i: Int64, rest: string)
    requires tag == "int" || tag == "i4" || tag == "i8"
    ensures Reads(Typed(tag, Decimal(i), rest), Number(i), rest)
  {
    ReadsIntegers(tag, Decimal(i), rest);
    DecimalIsSolid(i);
    DecimalIsPlain(i);
    TrimSolid(Decimal(i));
    PiecesLast(Decimal(i));
    ReadsDecimal(i);
  }

  lemma DecimalIsPlain(i: int)
    ensures PlainLength(Decimal(i)) == |Decimal(i)|
  {
    ReadsDigits(if i < 0 then -i else i);
  }

  /** Exactly the text "1" is true. */
  lemma ReadsBooleans(text: string, rest: string)
    ensures Reads(Typed("boolean", text, rest), Bool(Trim(NormalText(text)) == "1"), rest)
  {
    ReadsScalar("boolean", text, rest);
  }

  lemma ReadsBase64(text: string, rest: string)
    ensures Reads(Typed("base64", text, rest), Str(NoSpace(NormalText(text))), rest)
  {
    ReadsScalar("base64", text, rest);
  }

  lemma ReadsStrings(text: string, rest: string)
    ensures Reads(Typed("string", text, rest), Str(NormalText(text)), rest)
  {
    ReadsScalar("string", text, rest);
  }

  // ---- Untyped text ------------------------------------------------------------------------------

  lemma BareRun(run: string, es: seq<Token>, bare: Option<string>)
    ensures ParseValue(TextOf(run) + es, None, bare)
         == ParseValue(es, None, if Trim(run) == "" then bare else Append(bare, Newlines(Trim(run))))
  {
    if Trim(run) == "" {
      JoinEmpty(es);
    } else {
      Cons(Text(Trim(run)), es);
    }
  }

  lemma BareRef(c: char, es: seq<Token>, bare: Option<string>)
    requires Special(c)
    ensures ParseValue([Ref(RefName(c))] + es, None, bare) == ParseValue(es, None, Append(bare, [c]))
  {
    Cons(Ref(RefName(c)), es);
    ResolvesEscape(c);
  }

  lemma BareEnd(bare: Option<string>, rest: seq<Token>)
    ensures ParseValue([End("value")] + rest, None, bare) == Some(Parsed(Str(bare.GetOr("")), rest))
  {
  }

  lemma BareText(bare: Option<string>, run: string)
    ensures var next := if Trim(run) == "" then bare else Append(bare, Newlines(Trim(run)));
            next.GetOr("") == bare.GetOr("") + Newlines(Trim(run))
  {
    JoinEmpty(bare.GetOr(""));
    JoinEmpty(Newlines(Trim(run)));
  }

  lemma {:induction false} BarePieces(s: string, bare: Option<string>, rest: seq<Token>)
    ensures ParseValue(Pieces(s) + ([End("value")] + rest), None, bare)
         == Some(Parsed(Str(bare.GetOr("") + NormalText(s)), rest))
    decreases |s|
  {
    var n, es := PlainLength(s), [End("value")] + rest;
    var next := if Trim(s[..n]) == "" then bare else Append(bare, Newlines(Trim(s[..n])));
    BareText(bare, s[..n]);
    if n == |s| {
      TakeAll(s);
      PiecesLast(s);
      BareRun(s, es, bare);
      BareEnd(next, rest);
    } else {
      var after := Append(next, [s[n]]);
      BarePieces(s[n + 1..], after, rest);
      PiecesStep(s, n, es);
      BareRun(s[..n], [Ref(RefName(s[n]))] + (Pieces(s[n + 1..]) + es), bare);
      BareRef(s[n], Pieces(s[n + 1..]) + es, next);
      NormalTextSplit(s, n);
      JoinEmpty([s[n]]);
      Flattened(bare.GetOr(""), NormalText(s), Newlines(Trim(s[..n])), [s[n]], NormalText(s[n + 1..]));
    }
  }

  /** A value without a type is a string, whatever characters it holds. */
  lemma ReadsUntyped(text: string, rest: string)
    ensures Reads(Untyped(text, rest), Str(NormalText(text)), rest)
  {
    EscapedText(text, "value", rest);
    OpenToken("value", XmlEscape(text) + (Close("value") + rest));
    Cons(Start("value"), Pieces(text) + ([End("value")] + Tokenize(rest)));
    BarePieces(text, None, Tokenize(rest));
    JoinEmpty(NormalText(text));
  }

  lemma ParsesNilElement(rest: seq<Token>)
    ensures ParseValue([Start("nil")] + ([End("nil")] + ([End("value")] + rest)), None, None) == Some(Parsed(Null, rest))
  {
    var last := [End("value")] + rest;
    assert ParseValue(last, Some(Null), None) == Some(Parsed(Null, rest));
    Cons(End("nil"), last);
    assert ParseValue([End("nil")] + last, Some(Null), None) == ParseValue(last, Some(Null), None);
    Cons(Start("nil"), [End("nil")] + last);
  }

  /** A nil element with an end tag is null; the empty element the printer writes reads as an empty string. */
  lemma ReadsNil(rest: string)
    ensures Reads(Open("value") + (Open("nil") + (Close("nil") + (Close("value") + rest))), Null, rest)
    ensures Reads(Open("value") + ("<nil/>" + (Close("value") + rest)), Str(""), rest)
  {
    CloseToken("value", rest);
    CloseToken("nil", Close("value") + rest);
    OpenToken("nil", Close("nil") + (Close("value") + rest));
    OpenToken("value", Open("nil") + (Close("nil") + (Close("value") + rest)));
    Cons(Start("value"), [Start("nil")] + ([End("nil")] + ([End("value")] + Tokenize(rest))));
    ParsesNilElement(Tokenize(rest));
    NilToken(Close("value") + rest);
    OpenToken("value", "<nil/>" + (Close("value") + rest));
    Cons(Start("value"), [Empty("nil")] + ([End("value")] + Tokenize(rest)));
    ParsesNil(Tokenize(rest));
  }

  // ---- Repeated keys ---------------------------------------------------------------------------------

  function ValueAt(members: seq<Member>, key: string): Option<Value> {
    if members == [] then None
    else if members[0].key == key then Some(members[0].value)
    else ValueAt(members[1..], key)
  }

  lemma {:induction false} InsertedValue(members: seq<Member>, m: Member, key: string)
    ensures ValueAt(Insert(members, m), key) == if key == m.key then Some(m.value) else ValueAt(members, key)
  {
    if members == [] {
      assert [m][1..] == [];
    } else if members[0].key == m.key {
      JoinTail([m], members[1..]);
      JoinEmpty(members[1..]);
    } else if Less(m.key, members[0].key) {
      JoinTail([m], members);
      JoinEmpty(members);
    } else {
      InsertedValue(members[1..], m, key);
      Cons1(members[0], Insert(members[1..], m));
    }
  }

  lemma Cons1(m: Member, rest: seq<Member>)
    ensures ([m] + rest)[0] == m && ([m] + rest)[1..] == rest
  {
  }

  /** The last of the members sent whose key reads as `key`. */
  function LastSent(members: seq<Member>, key: string): Option<Value> {
    if members == [] then None
    else
      var last := members[|members| - 1];
      if NormalKey(last.key) == key then Some(Normal(last.value)) else LastSent(members[..|members| - 1], key)
  }

  lemma {:induction false} NormalMembersSnoc(done: seq<Member>, members: seq<Member>, m: Member)
    ensures NormalMembers(done, members + [m])
         == Insert(NormalMembers(done, members), Member(NormalKey(m.key), Normal(m.value)))
    decreases |members|
  {
    if members == [] {
      JoinEmpty([m]);
      assert [m][1..] == [];
    } else {
      JoinTail(members, [m]);
      NormalMembersSnoc(Insert(done, Member(NormalKey(members[0].key), Normal(members[0].value))), members[1..], m);
    }
  }

  /** Of members sent under one key the last is kept. */
  lemma {:induction false} RepeatedKeyTakesTheLast(members: seq<Member>, key: string)
    ensures ValueAt(NormalMembers([], members), key) == LastSent(members, key)
    decreases |members|
  {
    if members != [] {
      var front, last := members[..|members| - 1], members[|members| - 1];
      FrontAndLast(members);
      NormalMembersSnoc([], front, last);
      InsertedValue(NormalMembers([], front), Member(NormalKey(last.key), Normal(last.value)), key);
      RepeatedKeyTakesTheLast(front, key);
    }
  }

  // ---- Key order --------------------------------------------------------------------------------------

  lemma {:induction false} LessIsTotal(a: string, b: string)
    ensures a == b || Less(a, b) || Less(b, a)
  {
    if a != "" && b != "" && a[0] == b[0] {
      LessIsTotal(a[1..], b[1..]);
      HeadAndRest(a);
      HeadAndRest(b);
    }
  }

  lemma {:induction false} LessIsTransitive(a: string, b: string, c: string)
    requires Less(a, b) && Less(b, c)
    ensures Less(a, c)
  {
    if a != "" && b != "" && a[0] == b[0] == c[0] {
      LessIsTransitive(a[1..], b[1..], c[1..]);
    }
  }

  lemma {:induction false} InsertAfter(members: seq<Member>, m: Member, low: string)
    requires Less(low, m.key) && forall i :: 0 <= i < |members| ==> Less(low, members[i].key)
    ensures forall i :: 0 <= i < |Insert(members, m)| ==> Less(low, Insert(members, m)[i].key)
  {
    if members != [] {
      InsertAfter(members[1..], m, low);
    }
  }

  lemma {:induction false} InsertKeepsOrder(members: seq<Member>, m: Member)
    requires Ascending(members)
    ensures Ascending(Insert(members, m))
  {
    if members != [] && members[0].key != m.key {
      if Less(m.key, members[0].key) {
        forall i | 0 <= i < |members| ensures Less(m.key, members[i].key) {
          if i > 0 {
            LessIsTransitive(m.key, members[0].key, members[i].key);
          }
        }
      } else {
        LessIsTotal(members[0].key, m.key);
        InsertKeepsOrder(members[1..], m);
        InsertAfter(members[1..], m, members[0].key);
      }
    }
  }

  lemma {:induction false} InsertKeepsOrdered(members: seq<Member>, m: Member)
    requires KeyOrdered(m.value) && forall i :: 0 <= i < |members| ==> KeyOrdered(members[i].value)
    ensures forall i :: 0 <= i < |Insert(members, m)| ==> KeyOrdered(Insert(members, m)[i].value)
  {
    if members != [] {
      InsertKeepsOrdered(members[1..], m);
    }
  }

  /** Whatever is sent, every object read has its keys in order and each once. */
  lemma {:induction false} NormalIsOrdered(v: Value)
    ensures KeyOrdered(Normal(v))
    decreases v
  {
    match v
    case Array(items) => NormalItemsAreOrdered(items);
    case Object(members) => NormalMembersAreOrdered([], members);
    case _ =>
  }

  lemma {:induction false} NormalItemsAreOrdered(items: seq<Value>)
    ensures forall i :: 0 <= i < |NormalItems(items)| ==> KeyOrdered(NormalItems(items)[i])
    decreases items
  {
    if items != [] {
      NormalIsOrdered(items[0]);
      NormalItemsAreOrdered(items[1..]);
    }
  }

  lemma {:induction false} NormalMembersAreOrdered(done: seq<Member>, members: seq<Member>)
    requires Ascending(done) && forall i :: 0 <= i < |done| ==> KeyOrdered(done[i].value)
    ensures Ascending(NormalMembers(done, members))
    ensures forall i :: 0 <= i < |NormalMembers(done, members)| ==> KeyOrdered(NormalMembers(done, members)[i].value)
    decreases members
  {
    if members != [] {
      NormalIsOrdered(members[0].value);
      var m := Member(NormalKey(members[0].key), Normal(members[0].value));
      InsertKeepsOrder(done, m);
      InsertKeepsOrdered(done, m);
      NormalMembersAreOrdered(Insert(done, m), members[1..]);
    }
  }

  // ---- Whole calls ---------------------------------------------------------------------------------------

  lemma OtherSkipped(es: seq<Token>, name: string, inName: bool, params: seq<Value>)
    ensures ParseCall([Other] + es, name, inName, params) == ParseCall(es, name, inName, params)
  {
  }

  lemma PrologToken(prolog: string, rest: string)
    requires Without(prolog, '>')
    ensures Tokenize("<?" + prolog + ">" + rest) == [Other] + Tokenize(rest)
  {
    var body := "?" + prolog;
    assert "<" + body == "<?" + prolog;
    TagToken(body, rest);
  }

  /** An XML declaration before the call changes nothing. */
  lemma CallAfterPrologParses(prolog: string, name: string, params: seq<Value>)
    requires Without(prolog, '>') && Solid(name) && PlainLength(name) == |name|
    requires forall i :: 0 <= i < |params| ==> NoDouble(params[i])
    ensures ParseCall(Tokenize("<?" + prolog + ">" + CallDocument(name, params)), "", false, [])
         == Some(Call(name, NormalItems(params)))
  {
    PrologToken(prolog, CallDocument(name, params));
    OtherSkipped(Tokenize(CallDocument(name, params)), "", false, []);
    CallParses(name, params);
  }

  function CallEnd(): string {
    Close("params") + (Close("methodCall") + "")
  }

  lemma NamelessEnd(params: seq<Value>)
    ensures ParseCall(Tokenize(CallEnd()), "", false, params) == None
  {
    CloseToken("methodCall", "");
    CloseToken("params", Close("methodCall") + "");
    SkipEnd("params", Tokenize(Close("methodCall") + ""), "", false, params);
    SkipEnd("methodCall", [], "", false, params);
  }

  lemma NamelessListing(tag: string, params: seq<Value>, end: string, document: string)
    requires TagWord(tag) && tag != "methodName" && tag != "value"
    requires forall i :: 0 <= i < |params| ==> NoDouble(params[i])
    requires ParseCall(Tokenize(end), "", false, NormalItems(params)) == None
    requires document == Open(tag) + (Open("params") + ParamsThen(params, end))
    ensures ParseCall(Tokenize(document), "", false, []) == None
  {
    OpenSkipped(tag, Open("params") + ParamsThen(params, end), "", false, []);
    ListingParses("", params, end);
  }

  lemma CallTag()
    ensures TagWord("methodCall") && "methodCall" != "methodName" && "methodCall" != "value"
  {
  }

  /** A call that names no method is refused, whatever its parameters. */
  lemma NamelessCallFails(params: seq<Value>, document: string)
    requires forall i :: 0 <= i < |params| ==> NoDouble(params[i])
    requires document == Open("methodCall") + (Open("params") + ParamsThen(params, CallEnd()))
    ensures ParseCall(Tokenize(document), "", false, []) == None
  {
    CallTag();
    NamelessEnd(NormalItems(params));
    NamelessListing("methodCall", params, CallEnd(), document);
  }
}
