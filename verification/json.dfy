/**
 * The JSON text stored in browser storage: a flat object whose values are integers,
 * strings without escapes, booleans or null. `EncodeObject` plays the part of
 * `JSON.stringify` and `Parse` the part of `JSON.parse` (a lexer followed by a parser over
 * tokens); anything outside this subset (fractions, exponents, escapes, arrays, nested
 * objects) does not parse.
 */
module Json {
  import opened Wrappers
  import opened Text

  datatype Value = JInt(i: int) | JStr(s: string) | JBool(b: bool) | JNull

  /** A parsed document: an object (members in textual order) or a lone scalar. */
  datatype Doc = Obj(members: seq<(string, Value)>) | Scalar(v: Value)

  predicate IsJsonSpace(c: char) { c == ' ' || c == '\t' || c == '\n' || c == '\r' }

  /** A character that may appear unescaped inside a string literal. */
  predicate PlainChar(c: char) { c != '"' && c != '\\' && c >= ' ' }

  predicate PlainString(s: string) { forall i :: 0 <= i < |s| ==> PlainChar(s[i]) }

  predicate Encodable(v: Value) { v.JStr? ==> PlainString(v.s) }

  predicate EncodableMembers(ms: seq<(string, Value)>) {
    forall k :: 0 <= k < |ms| ==> PlainString(ms[k].0) && Encodable(ms[k].1)
  }

  // ---------------------------------------------------------------- encoding

  function EncodeString(s: string): string { "\"" + s + "\"" }

  function EncodeValue(v: Value): string {
    match v
    case JInt(i) => IntToString(i)
    case JStr(s) => EncodeString(s)
    case JBool(b) => if b then "true" else "false"
    case JNull => "null"
  }

  function EncodeMember(m: (string, Value)): string {
    EncodeString(m.0) + ":" + EncodeValue(m.1)
  }

  function EncodeMembers(ms: seq<(string, Value)>): string {
    if ms == [] then ""
    else if |ms| == 1 then EncodeMember(ms[0])
    else EncodeMember(ms[0]) + "," + EncodeMembers(ms[1..])
  }

  /** `JSON.stringify` of an object: no whitespace, members in order. */
  function EncodeObject(ms: seq<(string, Value)>): string {
    "{" + EncodeMembers(ms) + "}"
  }

  // ---------------------------------------------------------------- lexing

  datatype Token = LBrace | RBrace | Colon | Comma | TStr(s: string) | TInt(i: int) | TTrue | TFalse | TNull

  /** Prefix `pre` to a successful token list. */
  function Then(pre: seq<Token>, r: Option<seq<Token>>): Option<seq<Token>> {
    match r
    case None => None
    case Some(ts) => Some(pre + ts)
  }

  lemma ThenThen(a: seq<Token>, b: seq<Token>, r: Option<seq<Token>>)
    ensures Then(a, Then(b, r)) == Then(a + b, r)
  {
    if r.Some? { assert a + (b + r.value) == (a + b) + r.value; }
  }

  /** The longest prefix of decimal digits. */
  function TakeDigits(s: string): (d: string)
    ensures |d| <= |s| && d == s[..|d|]
    ensures forall i :: 0 <= i < |d| ==> IsDigit(d[i])
  {
    if s != [] && IsDigit(s[0]) then [s[0]] + TakeDigits(s[1..]) else []
  }

  function DigitValue(c: char): nat
    requires IsDigit(c)
  {
    c as int - '0' as int
  }

  function DigitsValue(d: string): nat
    requires forall i :: 0 <= i < |d| ==> IsDigit(d[i])
  {
    if d == [] then 0 else 10 * DigitsValue(d[..|d| - 1]) + DigitValue(d[|d| - 1])
  }

  /** An integer literal at the start of `s` and its length: optional minus, digits, no
      superfluous leading zero. */
  function LexInt(s: string): (r: Option<(int, nat)>)
    ensures r.Some? ==> 0 < r.value.1 <= |s|
  {
    var neg := s != [] && s[0] == '-';
    var body := if neg then s[1..] else s;
    var d := TakeDigits(body);
    if d == [] || (|d| > 1 && d[0] == '0') then None
    else
      var magnitude: int := DigitsValue(d);
      Some((if neg then -magnitude else magnitude, if neg then |d| + 1 else |d|))
  }

  /** Position of the closing quote of a string body, if every character before it is plain. */
  function StringEnd(s: string): (r: Option<nat>)
    ensures r.Some? ==> r.value < |s| && s[r.value] == '"'
  {
    if s == [] then None
    else if s[0] == '"' then Some(0)
    else if !PlainChar(s[0]) then None
    else match StringEnd(s[1..])
      case None => None
      case Some(k) => Some(k + 1)
  }

  /** Splits JSON text into tokens, skipping whitespace; `None` on a character no token starts with. */
  function Lex(s: string): Option<seq<Token>>
    decreases |s|
  {
    if s == [] then Some([])
    else if IsJsonSpace(s[0]) then Lex(s[1..])
    else if s[0] == '{' then Then([LBrace], Lex(s[1..]))
    else if s[0] == '}' then Then([RBrace], Lex(s[1..]))
    else if s[0] == ':' then Then([Colon], Lex(s[1..]))
    else if s[0] == ',' then Then([Comma], Lex(s[1..]))
    else if s[0] == '"' then
      match StringEnd(s[1..])
      case None => None
      case Some(k) => Then([TStr(s[1..k + 1])], Lex(s[k + 2..]))
    else if StartsWith(s, "true") then Then([TTrue], Lex(s[4..]))
    else if StartsWith(s, "false") then Then([TFalse], Lex(s[5..]))
    else if StartsWith(s, "null") then Then([TNull], Lex(s[4..]))
    else
      match LexInt(s)
      case None => None
      case Some((i, n)) => Then([TInt(i)], Lex(s[n..]))
  }

  // ---------------------------------------------------------------- parsing

  function ValueToken(v: Value): Token {
    match v
    case JInt(i) => TInt(i)
    case JStr(s) => TStr(s)
    case JBool(b) => if b then TTrue else TFalse
    case JNull => TNull
  }

  predicate IsScalar(t: Token) { t.TStr? || t.TInt? || t.TTrue? || t.TFalse? || t.TNull? }

  function TokenValue(t: Token): Value
    requires IsScalar(t)
  {
    match t
    case TStr(s) => JStr(s)
    case TInt(i) => JInt(i)
    case TTrue => JBool(true)
    case TFalse => JBool(false)
    case TNull => JNull
  }

  /** `"key": value` members separated by commas, then the closing brace as the last token. */
  function ParseMembers(ts: seq<Token>): Option<seq<(string, Value)>>
    decreases |ts|
  {
    if |ts| < 4 || !ts[0].TStr? || ts[1] != Colon || !IsScalar(ts[2]) then None
    else
      var m := (ts[0].s, TokenValue(ts[2]));
      if ts[3] == RBrace then (if |ts| == 4 then Some([m]) else None)
      else if ts[3] == Comma then
        match ParseMembers(ts[4..])
        case None => None
        case Some(more) => Some([m] + more)
      else None
  }

  function ParseTokens(ts: seq<Token>): Option<Doc> {
    if ts == [] then None
    else if ts[0] == LBrace then
      if ts == [LBrace, RBrace] then Some(Obj([]))
      else
        match ParseMembers(ts[1..])
        case None => None
        case Some(ms) => Some(Obj(ms))
    else if |ts| == 1 && IsScalar(ts[0]) then Some(Scalar(TokenValue(ts[0])))
    else None
  }

  /** `JSON.parse` on the subset: `None` is a thrown SyntaxError. */
  function Parse(text: string): Option<Doc> {
    match Lex(text)
    case None => None
    case Some(ts) => ParseTokens(ts)
  }

  /** Property access on a parsed object: with repeated keys, the last one wins. */
  function Lookup(ms: seq<(string, Value)>, key: string): (r: Option<Value>)
    ensures r.Some? <==> exists k :: 0 <= k < |ms| && ms[k].0 == key
    ensures r.Some? ==> exists k :: 0 <= k < |ms| && ms[k] == (key, r.value)
  {
    if ms == [] then None
    else if ms[|ms| - 1].0 == key then Some(ms[|ms| - 1].1)
    else
      var r := Lookup(ms[..|ms| - 1], key);
      assert forall k :: 0 <= k < |ms| - 1 ==> ms[..|ms| - 1][k] == ms[k];
      r
  }

  // ---------------------------------------------------------------- round trip

  lemma {:induction false} TakeDigitsOf(d: string, rest: string)
    requires forall i :: 0 <= i < |d| ==> IsDigit(d[i])
    requires rest == [] || !IsDigit(rest[0])
    ensures TakeDigits(d + rest) == d
  {
    if d != [] {
      assert (d + rest)[1..] == d[1..] + rest;
      TakeDigitsOf(d[1..], rest);
    }
  }

  lemma {:induction false} DigitsValueOf(n: nat)
    ensures DigitsValue(NatToString(n)) == n
  {
    var d := NatToString(n);
    if n >= 10 {
      DigitsValueOf(n / 10);
      assert d[..|d| - 1] == NatToString(n / 10);
    }
  }

  lemma LexIntOf(n: int, rest: string)
    requires rest == [] || !IsDigit(rest[0])
    ensures LexInt(IntToString(n) + rest) == Some((n, |IntToString(n)|))
  {
    var s := IntToString(n) + rest;
    var m := if n < 0 then -n else n;
    var d := NatToString(m);
    if n < 0 {
      assert s == "-" + (d + rest);
      assert s[1..] == d + rest;
    } else {
      assert s == d + rest;
    }
    TakeDigitsOf(d, rest);
    DigitsValueOf(m);
  }

  lemma {:induction false} StringEndOf(str: string, rest: string)
    requires PlainString(str)
    ensures StringEnd(str + "\"" + rest) == Some(|str|)
  {
    if str != [] {
      assert (str + "\"" + rest)[1..] == str[1..] + "\"" + rest;
      StringEndOf(str[1..], rest);
    }
  }

  lemma LexStringOf(str: string, rest: string)
    requires PlainString(str)
    ensures Lex(EncodeString(str) + rest) == Then([TStr(str)], Lex(rest))
  {
    var s := EncodeString(str) + rest;
    assert s[1..] == str + "\"" + rest;
    StringEndOf(str, rest);
    assert s[1..|str| + 1] == str;
    assert s[|str| + 2..] == rest;
  }

  /** A value's text ends where a delimiter or the end of input begins. */
  predicate Delimited(rest: string) {
    rest == [] || rest[0] == ',' || rest[0] == '}'
  }

  lemma LexIntTokenOf(i: int, rest: string)
    requires Delimited(rest)
    ensures Lex(IntToString(i) + rest) == Then([TInt(i)], Lex(rest))
  {
    var t := IntToString(i);
    var s := t + rest;
    LexIntOf(i, rest);
    assert s[0] == t[0];
    assert t[0] == '-' || IsDigit(t[0]);
    assert !StartsWith(s, "true") && !StartsWith(s, "false") && !StartsWith(s, "null");
    assert s[|t|..] == rest;
  }

  lemma LexKeywordOf(b: Option<bool>, rest: string)
    requires Delimited(rest)
    ensures var w := match b case Some(true) => "true" case Some(false) => "false" case None => "null";
      var tok := match b case Some(true) => TTrue case Some(false) => TFalse case None => TNull;
      Lex(w + rest) == Then([tok], Lex(rest))
  {
    match b
    case Some(true) =>
      var s := "true" + rest;
      assert s[..4] == "true"; assert s[4..] == rest;
    case Some(false) =>
      var s := "false" + rest;
      assert s[0] == 'f';
      assert s[..4][0] != "true"[0];
      assert s[..5] == "false"; assert s[5..] == rest;
    case None =>
      var s := "null" + rest;
      assert s[0] == 'n';
      assert s[..4][0] != "true"[0];
      assert |s| < 5 || s[..5][0] != "false"[0];
      assert s[..4] == "null"; assert s[4..] == rest;
  }

  lemma LexValueOf(v: Value, rest: string)
    requires Encodable(v) && Delimited(rest)
    ensures Lex(EncodeValue(v) + rest) == Then([ValueToken(v)], Lex(rest))
  {
    match v
    case JInt(i) => LexIntTokenOf(i, rest);
    case JStr(str) => LexStringOf(str, rest);
    case JBool(b) => LexKeywordOf(Some(b), rest);
    case JNull => LexKeywordOf(None, rest);
  }

  lemma LexPunct(c: char, rest: string)
    requires c == '{' || c == '}' || c == ':' || c == ','
    ensures Lex([c] + rest) == Then([if c == '{' then LBrace else if c == '}' then RBrace
                                     else if c == ':' then Colon else Comma], Lex(rest))
  {
    assert ([c] + rest)[1..] == rest;
  }

  /** The tokens of `EncodeMembers(ms)`. */
  function MemberTokens(ms: seq<(string, Value)>): seq<Token> {
    if ms == [] then []
    else
      var first := [TStr(ms[0].0), Colon, ValueToken(ms[0].1)];
      if |ms| == 1 then first else first + [Comma] + MemberTokens(ms[1..])
  }

  lemma LexMemberOf(m: (string, Value), rest: string)
    requires PlainString(m.0) && Encodable(m.1) && Delimited(rest)
    ensures Lex(EncodeMember(m) + rest) == Then([TStr(m.0), Colon, ValueToken(m.1)], Lex(rest))
  {
    var tail := EncodeValue(m.1) + rest;
    assert EncodeMember(m) + rest == EncodeString(m.0) + ([':'] + tail);
    LexStringOf(m.0, [':'] + tail);
    assert Lex(EncodeMember(m) + rest) == Then([TStr(m.0)], Lex([':'] + tail));
    LexPunct(':', tail);
    assert Lex([':'] + tail) == Then([Colon], Lex(tail));
    LexValueOf(m.1, rest);
    assert Lex(tail) == Then([ValueToken(m.1)], Lex(rest));
    ThenThen([Colon], [ValueToken(m.1)], Lex(rest));
    ThenThen([TStr(m.0)], [Colon, ValueToken(m.1)], Lex(rest));
    assert [Colon] + [ValueToken(m.1)] == [Colon, ValueToken(m.1)];
    assert [TStr(m.0)] + [Colon, ValueToken(m.1)] == [TStr(m.0), Colon, ValueToken(m.1)];
  }

  lemma EncodeMembersUnfold(ms: seq<(string, Value)>, rest: string)
    requires |ms| > 1
    ensures EncodeMembers(ms) + "}" + rest == EncodeMember(ms[0]) + ([','] + (EncodeMembers(ms[1..]) + "}" + rest))
  {
    var a, b := EncodeMember(ms[0]), EncodeMembers(ms[1..]);
    assert EncodeMembers(ms) == a + "," + b;
    Regroup(a, ",", b, "}", rest);
  }

  lemma Regroup<T>(a: seq<T>, b: seq<T>, c: seq<T>, d: seq<T>, e: seq<T>)
    ensures a + b + c + d + e == a + (b + (c + d + e))
  {
  }

  lemma MemberTokensUnfold(ms: seq<(string, Value)>)
    requires |ms| > 1
    ensures MemberTokens(ms) + [RBrace]
         == [TStr(ms[0].0), Colon, ValueToken(ms[0].1)] + ([Comma] + (MemberTokens(ms[1..]) + [RBrace]))
  {
  }

  lemma {:induction false} LexMembersOf(ms: seq<(string, Value)>, rest: string)
    requires ms != [] && EncodableMembers(ms)
    ensures Lex(EncodeMembers(ms) + "}" + rest) == Then(MemberTokens(ms) + [RBrace], Lex(rest))
    decreases |ms|
  {
    var first := [TStr(ms[0].0), Colon, ValueToken(ms[0].1)];
    assert PlainString(ms[0].0) && Encodable(ms[0].1);
    if |ms| == 1 {
      assert EncodeMembers(ms) + "}" + rest == EncodeMember(ms[0]) + (['}'] + rest);
      LexMemberOf(ms[0], ['}'] + rest);
      LexPunct('}', rest);
      ThenThen(first, [RBrace], Lex(rest));
    } else {
      var later := MemberTokens(ms[1..]) + [RBrace];
      var next := EncodeMembers(ms[1..]) + "}" + rest;
      EncodeMembersUnfold(ms, rest);
      LexMemberOf(ms[0], [','] + next);
      LexPunct(',', next);
      assert EncodableMembers(ms[1..]) by {
        forall k | 0 <= k < |ms[1..]| ensures PlainString(ms[1..][k].0) && Encodable(ms[1..][k].1) {
          assert ms[1..][k] == ms[k + 1];
        }
      }
      LexMembersOf(ms[1..], rest);
      assert Lex(next) == Then(later, Lex(rest));
      ThenThen([Comma], later, Lex(rest));
      ThenThen(first, [Comma] + later, Lex(rest));
      MemberTokensUnfold(ms);
    }
  }

  lemma {:induction false} ParseMembersOf(ms: seq<(string, Value)>)
    requires ms != [] && EncodableMembers(ms)
    ensures ParseMembers(MemberTokens(ms) + [RBrace]) == Some(ms)
    decreases |ms|
  {
    var ts := MemberTokens(ms) + [RBrace];
    var v := ValueToken(ms[0].1);
    assert IsScalar(v) && TokenValue(v) == ms[0].1;
    if |ms| == 1 {
      assert ts == [TStr(ms[0].0), Colon, v, RBrace];
      assert [ms[0]] == ms;
    } else {
      var later := MemberTokens(ms[1..]) + [RBrace];
      MemberTokensUnfold(ms);
      assert ts == [TStr(ms[0].0), Colon, v, Comma] + later;
      assert ts[4..] == later;
      assert EncodableMembers(ms[1..]) by {
        forall k | 0 <= k < |ms[1..]| ensures PlainString(ms[1..][k].0) && Encodable(ms[1..][k].1) {
          assert ms[1..][k] == ms[k + 1];
        }
      }
      ParseMembersOf(ms[1..]);
      assert [ms[0]] + ms[1..] == ms;
    }
  }

  /** Parsing what `EncodeObject` printed gives back the same members in the same order. */
  lemma ParseEncodeObject(ms: seq<(string, Value)>)
    requires EncodableMembers(ms)
    ensures Parse(EncodeObject(ms)) == Some(Obj(ms))
  {
    var text := EncodeObject(ms);
    if ms == [] {
      assert text == "{}";
      LexPunct('{', "}");
      LexPunct('}', []);
    } else {
      assert text == ['{'] + (EncodeMembers(ms) + "}" + []);
      LexPunct('{', EncodeMembers(ms) + "}" + []);
      LexMembersOf(ms, []);
      ThenThen([LBrace], MemberTokens(ms) + [RBrace], Lex([]));
      var ts := [LBrace] + (MemberTokens(ms) + [RBrace]);
      assert Lex([]) == Some([]);
      assert ts + [] == ts;
      assert Lex(text) == Some(ts);
      assert ts[1..] == MemberTokens(ms) + [RBrace];
      ParseMembersOf(ms);
      assert ts != [LBrace, RBrace] by { assert |MemberTokens(ms)| >= 3; }
    }
  }
}
