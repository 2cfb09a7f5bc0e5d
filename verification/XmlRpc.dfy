/** XML-RPC values: printing them, and what parsing the printed document gives back. */
module XmlRpc {
  import opened Prelude
  import opened XmlTokens

  const I64_MIN: int := -0x8000_0000_0000_0000
  const I64_MAX: int := 0x7FFF_FFFF_FFFF_FFFF

  type Int64 = i: int | I64_MIN <= i <= I64_MAX

  /** An object's members are kept in key order. A double is known only by its text. */
  datatype Value = Null | Bool(flag: bool) | Number(number: Int64) | Double(digits: string) | Str(text: string)
                 | Array(items: seq<Value>) | Object(members: seq<Member>)

  datatype Member = Member(key: string, value: Value)

  datatype Parsed<T> = Parsed(value: T, rest: seq<Token>)

  // ---- Numbers ------------------------------------------------------------------------

  function Digit(n: nat): char
    requires n < 10
  {
    "0123456789"[n]
  }

  function DigitValue(c: char): Option<nat> {
    if '0' <= c <= '9' then Some((c - '0') as int) else None
  }

  function Digits(n: nat): string {
    if n < 10 then [Digit(n)] else Digits(n / 10) + [Digit(n % 10)]
  }

  function Decimal(i: int): string {
    if i < 0 then "-" + Digits(-i) else Digits(i)
  }

  function ReadDigits(s: string): Option<nat> {
    if s == "" then None
    else
      match DigitValue(s[|s| - 1])
      case None => None
      case Some(d) =>
        if |s| == 1 then Some(d)
        else match ReadDigits(s[..|s| - 1])
             case None => None
             case Some(n) => Some(10 * n + d)
  }

  /** An integer that does not fit is an error, as it is for the source's parser. */
  function Signed(sign: int, magnitude: Option<nat>): Option<Int64> {
    match magnitude
    case None => None
    case Some(n) => if I64_MIN <= sign * n <= I64_MAX then Some(sign * n) else None
  }

  function ParseInt(s: string): Option<Int64> {
    if s == "" then None
    else if s[0] == '-' then Signed(-1, ReadDigits(s[1..]))
    else Signed(1, ReadDigits(if s[0] == '+' then s[1..] else s))
  }

  predicate Numeral(s: string) {
    s != "" && forall i :: 0 <= i < |s| ==> '0' <= s[i] <= '9'
  }

  lemma OneMoreDigit(s: string, n: nat, d: nat)
    requires d < 10 && ReadDigits(s) == Some(n) && Numeral(s)
    ensures ReadDigits(s + [Digit(d)]) == Some(10 * n + d) && Numeral(s + [Digit(d)])
  {
    var t := s + [Digit(d)];
    assert t[..|t| - 1] == s && t[|t| - 1] == Digit(d);
    assert DigitValue(Digit(d)) == Some(d);
  }

  lemma {:induction false} ReadsDigits(n: nat)
    ensures ReadDigits(Digits(n)) == Some(n) && Numeral(Digits(n))
  {
    if n < 10 {
      assert DigitValue(Digit(n)) == Some(n);
    } else {
      ReadsDigits(n / 10);
      OneMoreDigit(Digits(n / 10), n / 10, n % 10);
    }
  }

  lemma ReadsNegative(n: nat)
    ensures ParseInt("-" + Digits(n)) == Signed(-1, Some(n))
  {
    ReadsDigits(n);
    assert ("-" + Digits(n))[1..] == Digits(n);
  }

  lemma ReadsPositive(n: nat)
    ensures ParseInt(Digits(n)) == Signed(1, Some(n))
  {
    ReadsDigits(n);
  }

  lemma SignedFits(sign: int, n: nat)
    requires I64_MIN <= sign * n <= I64_MAX
    ensures Signed(sign, Some(n)) == Some(sign * n)
  {
  }

  lemma ReadsDecimal(i: Int64)
    ensures ParseInt(Decimal(i)) == Some(i)
  {
    var n: int := i;
    if n < 0 {
      ReadsNegative(-n);
      SignedFits(-1, -n);
    } else {
      ReadsPositive(n);
      SignedFits(1, n);
    }
  }

  predicate Solid(s: string) {
    s != "" && forall k :: 0 <= k < |s| ==> !IsSpace(s[k]) && !EndsText(s[k])
  }

  lemma NumeralIsSolid(s: string)
    requires Numeral(s)
    ensures Solid(s) && Solid("-" + s)
  {
  }

  lemma DecimalIsSolid(i: int)
    ensures Solid(Decimal(i))
  {
    var n := if i < 0 then -i else i;
    ReadsDigits(n);
    NumeralIsSolid(Digits(n));
  }

  // ---- Printing ------------------------------------------------------------------------

  function Open(name: string): string {
    "<" + name + ">"
  }

  function Close(name: string): string {
    "</" + name + ">"
  }

  /** `to_xml`. */
  function Xml(v: Value): string
    decreases v
  {
    Open("value") + Inner(v) + Close("value")
  }

  function Inner(v: Value): string
    decreases v, 0
  {
    match v
    case Null => "<nil/>"
    case Bool(b) => Open("boolean") + (if b then "1" else "0") + Close("boolean")
    case Number(i) => Open("int") + Decimal(i) + Close("int")
    case Double(digits) => Open("double") + digits + Close("double")
    case Str(s) => Open("string") + XmlEscape(s) + Close("string")
    case Array(items) => Open("array") + Open("data") + XmlItems(items) + Close("data") + Close("array")
    case Object(members) => Open("struct") + XmlMembers(members) + Close("struct")
  }

  function XmlItems(items: seq<Value>): string
    decreases items
  {
    if items == [] then "" else Xml(items[0]) + XmlItems(items[1..])
  }

  function XmlMember(key: string, value: string): string {
    Open("member") + Open("name") + XmlEscape(key) + Close("name") + value + Close("member")
  }

  function XmlMembers(members: seq<Member>): string
    decreases members
  {
    if members == [] then "" else XmlMember(members[0].key, Xml(members[0].value)) + XmlMembers(members[1..])
  }

  // ---- Reading the reader's events --------------------------------------------------------

  /** Line ends in text become line feeds. */
  function Newlines(s: string): string
    decreases |s|
  {
    if s == "" then ""
    else if s[0] == '\r' then "\n" + Newlines(if |s| > 1 && s[1] == '\n' then s[2..] else s[1..])
    else [s[0]] + Newlines(s[1..])
  }

  function HexValue(c: char): Option<nat> {
    if '0' <= c <= '9' then Some((c - '0') as int)
    else if 'a' <= c <= 'f' then Some((c - 'a') as int + 10)
    else if 'A' <= c <= 'F' then Some((c - 'A') as int + 10)
    else None
  }

  function ReadHex(s: string): Option<nat> {
    if s == "" then None
    else
      match HexValue(s[|s| - 1])
      case None => None
      case Some(d) =>
        if |s| == 1 then Some(d)
        else match ReadHex(s[..|s| - 1])
             case None => None
             case Some(n) => Some(16 * n + d)
  }

  function CodePoint(code: Option<nat>): Option<string> {
    match code
    case None => None
    case Some(n) => if 0 < n < 0xD800 || 0xE000 <= n < 0x11_0000 then Some([n as char]) else None
  }

  function CharRef(name: string): Option<string> {
    if |name| < 2 || name[0] != '#' then None
    else if name[1] == 'x' then CodePoint(ReadHex(name[2..]))
    else CodePoint(ReadDigits(name[1..]))
  }

  function ResolveRef(name: string): string {
    match CharRef(name)
    case Some(c) => c
    case None =>
      if name == "lt" then "<"
      else if name == "gt" then ">"
      else if name == "amp" then "&"
      else if name == "apos" then "'"
      else if name == "quot" then "\""
      else "&" + name + ";"
  }

  function ReadText(es: seq<Token>, end: string, out: string): (r: Option<Parsed<string>>)
    ensures r.Some? ==> |r.value.rest| < |es|
    decreases |es|
  {
    if es == [] then None
    else
      match es[0]
      case Text(t) => ReadText(es[1..], end, out + Newlines(t))
      case Ref(name) => ReadText(es[1..], end, out + ResolveRef(name))
      case End(name) => if name == end then Some(Parsed(out, es[1..])) else ReadText(es[1..], end, out)
      case Broken => None
      case _ => ReadText(es[1..], end, out)
  }

  predicate IsScalar(tag: string) {
    tag == "string" || tag == "int" || tag == "i4" || tag == "i8" || tag == "boolean" || tag == "double" || tag == "base64"
  }

  function NoSpace(s: string): string {
    if s == "" then "" else (if IsSpace(s[0]) then "" else [s[0]]) + NoSpace(s[1..])
  }

  function Scalar(tag: string, text: string): Value
    requires IsScalar(tag)
  {
    if tag == "string" then Str(text)
    else if tag == "boolean" then Bool(Trim(text) == "1")
    else if tag == "double" then Double(Trim(text))
    else if tag == "base64" then Str(NoSpace(text))
    else Number(match ParseInt(Trim(text)) case Some(i) => i case None => 0)
  }

  predicate Less(a: string, b: string) {
    b != "" && (a == "" || a[0] < b[0] || (a[0] == b[0] && Less(a[1..], b[1..])))
  }

  /** Members stay in key order; a repeated key takes the later value. */
  function Insert(members: seq<Member>, m: Member): seq<Member> {
    if members == [] then [m]
    else if members[0].key == m.key then [m] + members[1..]
    else if Less(m.key, members[0].key) then [m] + members
    else [members[0]] + Insert(members[1..], m)
  }

  function OrBare(result: Option<Value>, bare: Option<string>): Value {
    match result
    case Some(v) => v
    case None => match bare case Some(s) => Str(s) case None => Str("")
  }

  function Append(bare: Option<string>, s: string): Option<string> {
    match bare case Some(b) => Some(b + s) case None => Some(s)
  }

  /** The rest of one value, after its start tag. */
  function ParseValue(es: seq<Token>, result: Option<Value>, bare: Option<string>): (r: Option<Parsed<Value>>)
    ensures r.Some? ==> |r.value.rest| < |es|
    decreases |es|
  {
    if es == [] then None
    else
      match es[0]
      case Start(tag) =>
        if IsScalar(tag) then
          match ReadText(es[1..], tag, "")
          case None => None
          case Some(p) => ParseValue(p.rest, Some(Scalar(tag, p.value)), bare)
        else if tag == "nil" then ParseValue(es[1..], Some(Null), bare)
        else if tag == "array" then
          match ParseArray(es[1..], [])
          case None => None
          case Some(p) => ParseValue(p.rest, Some(Array(p.value)), bare)
        else if tag == "struct" then
          match ParseStruct(es[1..], [], "", false)
          case None => None
          case Some(p) => ParseValue(p.rest, Some(Object(p.value)), bare)
        else ParseValue(es[1..], result, bare)
      case Text(t) => ParseValue(es[1..], result, Append(bare, Newlines(t)))
      case Ref(name) => ParseValue(es[1..], result, Append(bare, ResolveRef(name)))
      case End(tag) =>
        if tag == "value" then Some(Parsed(OrBare(result, bare), es[1..])) else ParseValue(es[1..], result, bare)
      case Broken => None
      case _ => ParseValue(es[1..], result, bare)
  }

  function ParseArray(es: seq<Token>, items: seq<Value>): (r: Option<Parsed<seq<Value>>>)
    ensures r.Some? ==> |r.value.rest| < |es|
    decreases |es|
  {
    if es == [] then None
    else
      match es[0]
      case Start(tag) =>
        if tag == "value" then
          match ParseValue(es[1..], None, None)
          case None => None
          case Some(p) => ParseArray(p.rest, items + [p.value])
        else ParseArray(es[1..], items)
      case End(tag) => if tag == "array" then Some(Parsed(items, es[1..])) else ParseArray(es[1..], items)
      case Broken => None
      case _ => ParseArray(es[1..], items)
  }

  /** `key` and `inName` carry over between members, as the source's variables do. */
  function ParseStruct(es: seq<Token>, members: seq<Member>, key: string, inName: bool): (r: Option<Parsed<seq<Member>>>)
    ensures r.Some? ==> |r.value.rest| < |es|
    decreases |es|
  {
    if es == [] then None
    else
      match es[0]
      case Start(tag) =>
        if tag == "name" then ParseStruct(es[1..], members, key, true)
        else if tag == "value" then
          match ParseValue(es[1..], None, None)
          case None => None
          case Some(p) => ParseStruct(p.rest, Insert(members, Member(key, p.value)), "", inName)
        else ParseStruct(es[1..], members, key, inName)
      case Text(t) =>
        if inName then ParseStruct(es[1..], members, Newlines(t), false) else ParseStruct(es[1..], members, key, inName)
      case End(tag) =>
        if tag == "struct" then Some(Parsed(members, es[1..])) else ParseStruct(es[1..], members, key, inName)
      case Broken => None
      case _ => ParseStruct(es[1..], members, key, inName)
  }

  // ---- What a value becomes --------------------------------------------------------------------

  /** Each run between escaped characters loses its outer space and has its line ends normalised. */
  function NormalText(s: string): string
    decreases |s|
  {
    var n := PlainLength(s);
    if n == |s| then Newlines(Trim(s)) else Newlines(Trim(s[..n])) + ([s[n]] + NormalText(s[n + 1..]))
  }

  /** A key keeps only its first run that is not blank. */
  function NormalKey(k: string): string
    decreases |k|
  {
    var n := PlainLength(k);
    if Trim(k[..n]) != "" then Newlines(Trim(k[..n]))
    else if n == |k| then ""
    else NormalKey(k[n + 1..])
  }

  function Normal(v: Value): Value
    decreases v
  {
    match v
    case Null => Str("")
    case Bool(_) => v
    case Number(_) => v
    case Double(_) => v
    case Str(s) => Str(NormalText(s))
    case Array(items) => Array(NormalItems(items))
    case Object(members) => Object(NormalMembers([], members))
  }

  function NormalItems(items: seq<Value>): seq<Value>
    decreases items
  {
    if items == [] then [] else [Normal(items[0])] + NormalItems(items[1..])
  }

  function NormalMembers(done: seq<Member>, members: seq<Member>): seq<Member>
    decreases members
  {
    if members == [] then done
    else NormalMembers(Insert(done, Member(NormalKey(members[0].key), Normal(members[0].value))), members[1..])
  }
}
