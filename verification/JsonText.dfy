/**
 JSON text as RFC 8259 defines it, as far as reading back what the writer of core/src/json_writer.cpp
 produces needs it: values with numbers kept as text, the escaping of strings (section 7), and a reader.
 A `char` stands for one byte of the writer's output.
 */
module JsonText {
  import opened Outcomes
  import opened Decimals

  datatype JsonTree =
    | Null | Bool(b: bool) | Num(text: string) | Str(s: string)
    | Arr(items: seq<JsonTree>) | Obj(members: seq<Member>)

  datatype Member = Member(key: string, value: JsonTree)

  // ---------------------------------------------------------------- strings

  function HexChar(d: nat): char
    requires d < 16
  {
    ['0', '1', '2', '3', '4', '5', '6', '7', '8', '9', 'a', 'b', 'c', 'd', 'e', 'f'][d]
  }

  function HexValue(c: char): Option<nat> {
    if '0' <= c <= '9' then Some(c as nat - '0' as nat)
    else if 'a' <= c <= 'f' then Some(c as nat - 'a' as nat + 10)
    else if 'A' <= c <= 'F' then Some(c as nat - 'A' as nat + 10)
    else None
  }

  function EscapeChar(c: char): string {
    if c == '"' then "\\\""
    else if c == '\\' then "\\\\"
    else if c as nat == 8 then "\\b"
    else if c as nat == 12 then "\\f"
    else if c == '\n' then "\\n"
    else if c == '\r' then "\\r"
    else if c == '\t' then "\\t"
    else if c as nat < 32 then "\\u00" + [HexChar(c as nat / 16), HexChar(c as nat % 16)]
    else [c]
  }

  function EscapedBody(s: string): string {
    if s == "" then "" else EscapeChar(s[0]) + EscapedBody(s[1..])
  }

  /** A string literal. */
  function Escaped(s: string): string {
    "\"" + EscapedBody(s) + "\""
  }

  lemma Associate(a: string, b: string, c: string)
    ensures a + (b + c) == (a + b) + c
  {}

  method JsonEscape(s: string) returns (out: string)
    ensures out == Escaped(s)
  {
    out := "\"";
    for i := 0 to |s|
      invariant out + EscapedBody(s[i..]) == "\"" + EscapedBody(s)
    {
      var c := s[i];
      assert s[i..][1..] == s[i + 1..];
      var piece;
      if c == '"' {
        piece := "\\\"";
      } else if c == '\\' {
        piece := "\\\\";
      } else if c as nat == 8 {
        piece := "\\b";
      } else if c as nat == 12 {
        piece := "\\f";
      } else if c == '\n' {
        piece := "\\n";
      } else if c == '\r' {
        piece := "\\r";
      } else if c == '\t' {
        piece := "\\t";
      } else if c as nat < 32 {
        piece := "\\u00" + [HexChar(c as nat / 16), HexChar(c as nat % 16)];
      } else {
        piece := [c];
      }
      Associate(out, piece, EscapedBody(s[i + 1..]));
      out := out + piece;
    }
    assert s[|s|..] == "";
    out := out + "\"";
  }

  /** The character an escape stands for, and the text behind it. */
  function ReadEscape(s: string): (r: Option<(char, string)>)
    ensures r.Some? ==> |r.value.1| < |s|
  {
    if s == "" then None
    else
      match s[0]
      case '"' => Some(('"', s[1..]))
      case '\\' => Some(('\\', s[1..]))
      case '/' => Some(('/', s[1..]))
      case 'b' => Some((8 as char, s[1..]))
      case 'f' => Some((12 as char, s[1..]))
      case 'n' => Some(('\n', s[1..]))
      case 'r' => Some(('\r', s[1..]))
      case 't' => Some(('\t', s[1..]))
      case 'u' =>
        if |s| < 5 then None
        else
          (match (HexValue(s[1]), HexValue(s[2]), HexValue(s[3]), HexValue(s[4]))
           case (Some(a), Some(b), Some(c), Some(d)) =>
             var code := ((a * 16 + b) * 16 + c) * 16 + d;
             if code < 0xD800 then Some((code as char, s[5..])) else None
           case _ => None)
      case _ => None
  }

  /** The rest of a string literal behind its opening quote: the characters it stands for, and the text behind it. */
  function ReadString(s: string): (r: Option<(string, string)>)
    ensures r.Some? ==> |r.value.1| < |s|
    decreases |s|
  {
    if s == "" || s[0] as nat < 32 then None
    else if s[0] == '"' then Some(("", s[1..]))
    else if s[0] == '\\' then
      match ReadEscape(s[1..])
      case None => None
      case Some((c, rest)) =>
        (match ReadString(rest)
         case None => None
         case Some((t, after)) => Some(([c] + t, after)))
    else
      match ReadString(s[1..])
      case None => None
      case Some((t, after)) => Some(([s[0]] + t, after))
  }

  lemma HexRoundTrip(d: nat)
    requires d < 16
    ensures HexValue(HexChar(d)) == Some(d)
  {}

  lemma ReadEscapedChar(c: char, rest: string)
    ensures ReadString(EscapeChar(c) + rest) ==
            match ReadString(rest)
            case None => None
            case Some((t, after)) => Some(([c] + t, after))
  {
    var e := EscapeChar(c);
    var s := e + rest;
    if |e| == 1 {
      assert s[1..] == rest;
    } else if |e| == 2 {
      assert s[1..][1..] == rest;
    } else {
      HexRoundTrip(c as nat / 16);
      HexRoundTrip(c as nat % 16);
      assert s[1..][5..] == rest;
      assert HexValue('0') == Some(0);
      assert s[1..][0] == 'u' && s[1..][1] == '0' && s[1..][2] == '0';
    }
  }

  /** Reading a literal back gives the string it was written for, whatever its bytes. */
  lemma {:induction false} UnescapeInvertsEscape(s: string, rest: string)
    ensures ReadString(EscapedBody(s) + "\"" + rest) == Some((s, rest))
    decreases |s|
  {
    if s == "" {
      assert (EscapedBody(s) + "\"" + rest)[1..] == rest;
    } else {
      var tail := EscapedBody(s[1..]) + "\"" + rest;
      assert EscapedBody(s) + "\"" + rest == EscapeChar(s[0]) + tail;
      UnescapeInvertsEscape(s[1..], rest);
      ReadEscapedChar(s[0], tail);
      assert [s[0]] + s[1..] == s;
    }
  }

  /** An escape takes as many characters as the writer's for the same character, or more. */
  lemma EscapeIsShortest(s: string)
    requires ReadEscape(s).Some?
    ensures var (c, rest) := ReadEscape(s).value; |EscapeChar(c)| + |rest| <= 1 + |s|
  {}

  /** Of all literals that read as a string, with the same text behind them, the writer's is a shortest one. */
  lemma {:induction false} EscapedIsShortest(literal: string, s: string, rest: string)
    requires ReadString(literal) == Some((s, rest))
    ensures |EscapedBody(s) + "\"" + rest| <= |literal|
    decreases |literal|
  {
    if literal[0] == '\\' {
      var (c, more) := ReadEscape(literal[1..]).value;
      EscapeIsShortest(literal[1..]);
      EscapedIsShortest(more, s[1..], rest);
    } else if literal[0] != '"' {
      EscapedIsShortest(literal[1..], s[1..], rest);
    }
  }

  // ---------------------------------------------------------------- numbers

  predicate IsNumChar(c: char) {
    IsDigit(c) || c == '-' || c == '+' || c == '.' || c == 'e' || c == 'E'
  }

  /** An exponent part, or nothing. */
  predicate IsExponent(s: string) {
    s == "" ||
    ((s[0] == 'e' || s[0] == 'E') &&
     var t := if |s| > 1 && (s[1] == '+' || s[1] == '-') then s[2..] else s[1..];
     t != "" && DigitRun(t) == |t|)
  }

  /** A fraction part, or none, and then an exponent part. */
  predicate IsFraction(s: string) {
    if s != "" && s[0] == '.' then DigitRun(s[1..]) > 0 && IsExponent(s[1 + DigitRun(s[1..])..])
    else IsExponent(s)
  }

  predicate IsUnsigned(t: string) {
    var n := DigitRun(t);
    n > 0 && (t[0] == '0' ==> n == 1) && IsFraction(t[n..])
  }

  /** The number grammar of section 6. */
  predicate IsNumber(s: string) {
    IsUnsigned(if s != "" && s[0] == '-' then s[1..] else s)
  }

  function IntText(v: int): string {
    if v < 0 then "-" + Decimal(-v) else Decimal(v)
  }

  lemma DecimalLength(n: nat)
    ensures Decimal(n)[0] == '0' ==> |Decimal(n)| == 1
  {}

  lemma IntTextIsNumber(v: int)
    ensures IsNumber(IntText(v))
  {
    var t := Decimal(if v < 0 then -v else v);
    assert v < 0 ==> IntText(v)[1..] == t;
    DigitsAreARun(t);
    DecimalLength(if v < 0 then -v else v);
    assert t[0] != '-';
    assert t[|t|..] == "";
  }

  predicate Has(s: string, c: char) { c in s }

  /** The text of a double, from its shortest text: whole numbers get a fraction. */
  function DoubleText(shortest: string): string {
    if !Has(shortest, '.') && !Has(shortest, 'e') then shortest + ".0" else shortest
  }

  lemma WholeGetsFraction(t: string)
    requires IsUnsigned(t) && (forall c <- t :: c != '.' && c != 'e' && c != 'E')
    ensures IsUnsigned(t + ".0")
  {
    var n := DigitRun(t);
    assert forall k | 0 <= k < |t| :: t[k] in t;
    assert n == |t|;
    RunBefore(t, ".0");
    assert (t + ".0")[n..] == ".0" && ".0"[1..] == "0" && "0"[1..] == "";
    assert DigitRun("0") == 1;
  }

  lemma DoubleTextIsNumber(shortest: string)
    requires IsNumber(shortest) && !Has(shortest, 'E')
    ensures IsNumber(DoubleText(shortest))
  {
    if !Has(shortest, '.') && !Has(shortest, 'e') {
      if shortest[0] == '-' {
        WholeGetsFraction(shortest[1..]);
        assert (shortest + ".0")[1..] == shortest[1..] + ".0";
      } else {
        WholeGetsFraction(shortest);
      }
    }
  }

  // ---------------------------------------------------------------- reading a value

  function SkipSpace(s: string): (r: string)
    ensures |r| <= |s|
  {
    if s != "" && (s[0] == ' ' || s[0] == '\n' || s[0] == '\r' || s[0] == '\t') then SkipSpace(s[1..]) else s
  }

  function NumRun(s: string): (n: nat)
    ensures n <= |s|
  {
    if s == "" || !IsNumChar(s[0]) then 0 else NumRun(s[1..]) + 1
  }

  predicate StartsWith(s: string, prefix: string)
    ensures StartsWith(s, prefix) && prefix != "" ==> s != "" && s[0] == prefix[0]
  {
    assert |prefix| <= |s| && s[..|prefix|] == prefix && prefix != "" ==> s[..|prefix|][0] == s[0];
    |prefix| <= |s| && s[..|prefix|] == prefix
  }

  /** A word or a number, and the text behind it. */
  function ReadAtom(t: string): (r: Option<(JsonTree, string)>)
    ensures r.Some? ==> |r.value.1| < |t|
  {
    if StartsWith(t, "null") then Some((Null, t[4..]))
    else if StartsWith(t, "true") then Some((Bool(true), t[4..]))
    else if StartsWith(t, "false") then Some((Bool(false), t[5..]))
    else
      var n := NumRun(t);
      if n > 0 && IsNumber(t[..n]) then Some((Num(t[..n]), t[n..])) else None
  }

  /** A JSON value at the head of the text, white space before it allowed, and the text behind it. */
  function Read(s: string): (r: Option<(JsonTree, string)>)
    ensures r.Some? ==> |r.value.1| < |s|
    decreases |s|, 2
  {
    var t := SkipSpace(s);
    if t == "" then None
    else if t[0] == '"' then
      match ReadString(t[1..])
      case None => None
      case Some((v, rest)) => Some((Str(v), rest))
    else if t[0] == '[' then ReadArray(t[1..])
    else if t[0] == '{' then ReadObject(t[1..])
    else ReadAtom(t)
  }

  /** The rest of an array behind its opening bracket. */
  function ReadArray(s: string): (r: Option<(JsonTree, string)>)
    ensures r.Some? ==> |r.value.1| < |s|
    decreases |s|, 4
  {
    var u := SkipSpace(s);
    if u != "" && u[0] == ']' then Some((Arr([]), u[1..]))
    else
      match ReadItems(s)
      case None => None
      case Some((items, rest)) => Some((Arr(items), rest))
  }

  /** The rest of an object behind its opening brace. */
  function ReadObject(s: string): (r: Option<(JsonTree, string)>)
    ensures r.Some? ==> |r.value.1| < |s|
    decreases |s|, 4
  {
    var u := SkipSpace(s);
    if u != "" && u[0] == '}' then Some((Obj([]), u[1..]))
    else
      match ReadMembers(s)
      case None => None
      case Some((members, rest)) => Some((Obj(members), rest))
  }

  /** One or more values between commas, up to the closing bracket. */
  function ReadItems(s: string): (r: Option<(seq<JsonTree>, string)>)
    ensures r.Some? ==> |r.value.1| < |s|
    decreases |s|, 3
  {
    match Read(s)
    case None => None
    case Some((v, after)) =>
      var t := SkipSpace(after);
      if t == "" then None
      else if t[0] == ']' then Some(([v], t[1..]))
      else if t[0] == ',' then
        match ReadItems(t[1..])
        case None => None
        case Some((items, rest)) => Some(([v] + items, rest))
      else None
  }

  /** One or more members between commas, up to the closing brace. */
  function ReadMembers(s: string): (r: Option<(seq<Member>, string)>)
    ensures r.Some? ==> |r.value.1| < |s|
    decreases |s|, 0
  {
    var k := SkipSpace(s);
    if k == "" || k[0] != '"' then None
    else
      match ReadString(k[1..])
      case None => None
      case Some((key, behind)) =>
        var c := SkipSpace(behind);
        if c == "" || c[0] != ':' then None
        else
          match Read(c[1..])
          case None => None
          case Some((v, after)) =>
            var t := SkipSpace(after);
            if t == "" then None
            else if t[0] == '}' then Some(([Member(key, v)], t[1..]))
            else if t[0] == ',' then
              match ReadMembers(t[1..])
              case None => None
              case Some((members, rest)) => Some(([Member(key, v)] + members, rest))
            else None
  }

  /** The value of a whole text. */
  function Parse(s: string): Option<JsonTree> {
    match Read(s)
    case None => None
    case Some((v, rest)) => if SkipSpace(rest) == "" then Some(v) else None
  }
}
