/** Escaping, and the events a text-trimming XML reader makes of a document. */
module XmlTokens {
  import opened Prelude

  datatype Token = Start(name: string) | End(name: string) | Empty(name: string) | Text(text: string) | Ref(name: string)
                 | Other | Broken

  predicate IsSpace(c: char) {
    c == ' ' || c == '\t' || c == '\r' || c == '\n'
  }

  function TrimStart(s: string): string {
    if s != "" && IsSpace(s[0]) then TrimStart(s[1..]) else s
  }

  function TrimEnd(s: string): string {
    if s != "" && IsSpace(s[|s| - 1]) then TrimEnd(s[..|s| - 1]) else s
  }

  function Trim(s: string): string {
    TrimEnd(TrimStart(s))
  }

  predicate Without(s: string, c: char) {
    forall i :: 0 <= i < |s| ==> s[i] != c
  }

  /** The index of the first `stop`, or the length. */
  function Find(s: string, stop: char): (n: nat)
    ensures n <= |s|
    ensures Without(s[..n], stop)
    ensures n < |s| ==> s[n] == stop
  {
    if s == "" || s[0] == stop then 0 else 1 + Find(s[1..], stop)
  }

  predicate EndsText(c: char) {
    c == '<' || c == '&'
  }

  function TextLength(s: string): (n: nat)
    ensures n <= |s|
    ensures forall i :: 0 <= i < n ==> !EndsText(s[i])
    ensures n < |s| ==> EndsText(s[n])
  {
    if s == "" || EndsText(s[0]) then 0 else 1 + TextLength(s[1..])
  }

  function TagName(body: string): string {
    if body == "" || IsSpace(body[0]) then "" else [body[0]] + TagName(body[1..])
  }

  function Tag(body: string): Token {
    if body == "" then Start("")
    else if body[0] == '/' then End(TrimEnd(body[1..]))
    else if body[0] == '?' || body[0] == '!' then Other
    else if body[|body| - 1] == '/' then Empty(TagName(body[..|body| - 1]))
    else Start(TagName(body))
  }

  function TextOf(run: string): seq<Token> {
    if Trim(run) == "" then [] else [Text(Trim(run))]
  }

  function Tokenize(s: string): seq<Token>
    decreases |s|
  {
    if s == "" then []
    else if s[0] == '<' then
      var n := Find(s, '>');
      if n == |s| then [Broken] else [Tag(s[1..n])] + Tokenize(s[n + 1..])
    else if s[0] == '&' then
      var n := Find(s, ';');
      if n == |s| then [Broken] else [Ref(s[1..n])] + Tokenize(s[n + 1..])
    else
      var n := TextLength(s);
      TextOf(s[..n]) + Tokenize(s[n..])
  }

  lemma {:induction false} FindIs(s: string, n: nat, stop: char)
    requires n < |s| && s[n] == stop && Without(s[..n], stop)
    ensures Find(s, stop) == n
  {
  }

  lemma TagToken(body: string, rest: string)
    requires Without(body, '>')
    ensures Tokenize("<" + body + ">" + rest) == [Tag(body)] + Tokenize(rest)
  {
    var s := "<" + body + ">" + rest;
    assert s[..|body| + 1] == "<" + body && s[1..|body| + 1] == body && s[|body| + 2..] == rest;
    FindIs(s, |body| + 1, '>');
  }

  lemma RefToken(name: string, rest: string)
    requires Without(name, ';')
    ensures Tokenize("&" + name + ";" + rest) == [Ref(name)] + Tokenize(rest)
  {
    var s := "&" + name + ";" + rest;
    assert s[..|name| + 1] == "&" + name && s[1..|name| + 1] == name && s[|name| + 2..] == rest;
    FindIs(s, |name| + 1, ';');
  }

  predicate Markup(rest: string) {
    rest == "" || EndsText(rest[0])
  }

  predicate PlainText(run: string) {
    forall i :: 0 <= i < |run| ==> !EndsText(run[i])
  }

  lemma {:induction false} TextLengthIs(run: string, rest: string)
    requires PlainText(run) && Markup(rest)
    ensures TextLength(run + rest) == |run|
  {
    if run == "" {
      JoinEmpty(rest);
    } else {
      TextLengthIs(run[1..], rest);
      JoinTail(run, rest);
    }
  }

  lemma RunTokens(run: string, rest: string)
    requires PlainText(run) && Markup(rest)
    ensures Tokenize(run + rest) == TextOf(run) + Tokenize(rest)
  {
    if run == "" {
      JoinEmpty(rest);
    } else {
      JoinTail(run, rest);
      TextLengthIs(run, rest);
      JoinParts(run, rest);
    }
  }

  // ---- Escaping -----------------------------------------------------------------------

  function Replace(s: string, c: char, sub: string): string {
    if s == "" then "" else (if s[0] == c then sub else [s[0]]) + Replace(s[1..], c, sub)
  }

  /** `xml_escape`: three passes over the whole text. */
  function XmlEscape(s: string): string {
    Replace(Replace(Replace(s, '&', "&amp;"), '<', "&lt;"), '>', "&gt;")
  }

  predicate Special(c: char) {
    c == '&' || c == '<' || c == '>'
  }

  function RefName(c: char): string
    requires Special(c)
  {
    if c == '&' then "amp" else if c == '<' then "lt" else "gt"
  }

  function EscapeChar(c: char): string {
    if Special(c) then "&" + RefName(c) + ";" else [c]
  }

  function Escape(s: string): string {
    if s == "" then "" else EscapeChar(s[0]) + Escape(s[1..])
  }

  lemma {:induction false} ReplaceConcat(a: string, b: string, c: char, sub: string)
    ensures Replace(a + b, c, sub) == Replace(a, c, sub) + Replace(b, c, sub)
  {
    if a == "" {
      JoinEmpty(b);
    } else {
      ReplaceConcat(a[1..], b, c, sub);
      JoinTail(a, b);
      JoinAssoc(if a[0] == c then sub else [a[0]], Replace(a[1..], c, sub), Replace(b, c, sub));
    }
  }

  lemma {:induction false} ReplaceNone(s: string, c: char, sub: string)
    requires Without(s, c)
    ensures Replace(s, c, sub) == s
  {
    if s != "" {
      ReplaceNone(s[1..], c, sub);
    }
  }

  lemma EscapeOne(c: char)
    ensures Replace(Replace(Replace([c], '&', "&amp;"), '<', "&lt;"), '>', "&gt;") == EscapeChar(c)
  {
    assert [c][1..] == "";
    if c == '&' {
      assert Replace([c], '&', "&amp;") == "&amp;";
      ReplaceNone("&amp;", '<', "&lt;");
      ReplaceNone("&amp;", '>', "&gt;");
    } else {
      assert Replace([c], '&', "&amp;") == [c];
      if c == '<' {
        assert Replace([c], '<', "&lt;") == "&lt;";
        ReplaceNone("&lt;", '>', "&gt;");
      } else {
        assert Replace([c], '<', "&lt;") == [c];
      }
    }
  }

  /** Ampersands go first, so no pass touches what an earlier one wrote: the result is character by character. */
  lemma {:induction false} EscapeIsCharwise(s: string)
    ensures XmlEscape(s) == Escape(s)
  {
    if s != "" {
      EscapeIsCharwise(s[1..]);
      EscapeOne(s[0]);
      assert s == [s[0]] + s[1..];
      ReplaceConcat([s[0]], s[1..], '&', "&amp;");
      var head, tail := Replace([s[0]], '&', "&amp;"), Replace(s[1..], '&', "&amp;");
      ReplaceConcat(head, tail, '<', "&lt;");
      ReplaceConcat(Replace(head, '<', "&lt;"), Replace(tail, '<', "&lt;"), '>', "&gt;");
    }
  }

  /** The length of the text before the first escaped character. */
  function PlainLength(s: string): (n: nat)
    ensures n <= |s|
    ensures forall i :: 0 <= i < n ==> !Special(s[i])
    ensures n < |s| ==> Special(s[n])
  {
    if s == "" || Special(s[0]) then 0 else 1 + PlainLength(s[1..])
  }

  /** The events of an escaped text: trimmed runs, and a reference for each escaped character. */
  function Pieces(s: string): seq<Token>
    decreases |s|
  {
    var n := PlainLength(s);
    if n == |s| then TextOf(s) else TextOf(s[..n]) + ([Ref(RefName(s[n]))] + Pieces(s[n + 1..]))
  }

  lemma {:induction false} EscapePlain(s: string)
    requires forall i :: 0 <= i < |s| ==> !Special(s[i])
    ensures Escape(s) == s
  {
    if s != "" {
      EscapePlain(s[1..]);
    }
  }

  lemma {:induction false} EscapeFrom(s: string, n: nat)
    requires n <= |s| && forall i :: 0 <= i < n ==> !Special(s[i])
    ensures Escape(s) == s[..n] + Escape(s[n..])
  {
    if n == 0 {
      assert s[0..] == s && s[..0] == "";
      JoinEmpty(Escape(s));
    } else {
      EscapeFrom(s[1..], n - 1);
      SplitBehindHead(s, n);
      JoinAssoc([s[0]], s[1..][..n - 1], Escape(s[n..]));
    }
  }

  lemma Regroup(a: string, b: string, c: string, d: string)
    ensures (a + (b + c)) + d == a + (b + (c + d))
  {
  }

  lemma EscapeSplit(s: string, n: nat, rest: string)
    requires n == PlainLength(s) < |s|
    ensures Escape(s) + rest == s[..n] + ("&" + RefName(s[n]) + ";" + (Escape(s[n + 1..]) + rest))
  {
    EscapeFrom(s, n);
    EscapeHead(s, n);
    Regroup(s[..n], EscapeChar(s[n]), Escape(s[n + 1..]), rest);
  }

  lemma EscapeHead(s: string, n: nat)
    requires n < |s|
    ensures Escape(s[n..]) == EscapeChar(s[n]) + Escape(s[n + 1..])
  {
    assert s[n..][0] == s[n] && s[n..][1..] == s[n + 1..];
  }

  lemma GroupedJoin<T>(x: seq<T>, a: seq<T>, b: seq<T>, c: seq<T>, d: seq<T>)
    requires x == a + (b + c)
    ensures x + d == a + (b + (c + d))
  {
    JoinAssoc(a, b + c, d);
    JoinAssoc(b, c, d);
  }

  lemma PiecesSplit(s: string, n: nat)
    requires n == PlainLength(s) < |s|
    ensures Pieces(s) == TextOf(s[..n]) + ([Ref(RefName(s[n]))] + Pieces(s[n + 1..]))
  {
    var pieces := Pieces(s);
  }

  lemma RunThenRef(run: string, name: string, tail: string)
    requires PlainText(run) && Without(name, ';')
    ensures Tokenize(run + ("&" + name + ";" + tail)) == TextOf(run) + ([Ref(name)] + Tokenize(tail))
  {
    RunTokens(run, "&" + name + ";" + tail);
    RefToken(name, tail);
  }

  lemma EscapedLast(s: string, rest: string)
    requires PlainLength(s) == |s| && Markup(rest)
    ensures Tokenize(Escape(s) + rest) == Pieces(s) + Tokenize(rest)
  {
    EscapePlain(s);
    RunTokens(s, rest);
  }

  lemma EscapedJoin(s: string, n: nat, rest: string)
    requires n == PlainLength(s) < |s|
    requires Tokenize(Escape(s[n + 1..]) + rest) == Pieces(s[n + 1..]) + Tokenize(rest)
    ensures Tokenize(Escape(s) + rest) == Pieces(s) + Tokenize(rest)
  {
    EscapeSplit(s, n, rest);
    RunThenRef(s[..n], RefName(s[n]), Escape(s[n + 1..]) + rest);
    PiecesSplit(s, n);
    GroupedJoin(Pieces(s), TextOf(s[..n]), [Ref(RefName(s[n]))], Pieces(s[n + 1..]), Tokenize(rest));
  }

  lemma {:induction false} EscapedTokens(s: string, rest: string)
    requires Markup(rest)
    ensures Tokenize(Escape(s) + rest) == Pieces(s) + Tokenize(rest)
    decreases |s|
  {
    var n := PlainLength(s);
    if n == |s| {
      EscapedLast(s, rest);
    } else {
      EscapedTokens(s[n + 1..], rest);
      EscapedJoin(s, n, rest);
    }
  }
}
